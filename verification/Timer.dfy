/** The timer wheel (src/olsr_timer.c) refines a flat set of timers. Clocks are milliseconds before the 32-bit counter
    wraps. */
module Timer {
  import opened Basics

  const SLOTS: nat := 1024
  const RAND_MAX: nat := 0x7fff_ffff
  const U32: nat := 0x1_0000_0000
  const HORIZON: nat := 0x8000_0000

  type Id = nat
  type Class = nat

  datatype Entry = Entry(clock: nat, period: nat, jitter: nat, cls: Class, rand: nat)

  type Timers = map<Id, Entry>
  type Slots = seq<seq<Id>>

  // ---- arming ----

  // A random number scaled into 0..t
  function Spread(t: nat, rand: nat): (r: nat)
    ensures rand <= RAND_MAX ==> r <= t
  {
    ScaledRandom(t, rand);
    rand / (1 + RAND_MAX / (t + 1))
  }

  // A percentage of a delay, computed within 32 bits
  function JitterTime(delay: nat, jitter: nat): (r: nat)
    ensures 1 <= delay && jitter <= 99 ==> r < delay
    ensures delay <= 0x100_0000 && jitter <= 99 ==> jitter * delay < U32
  {
    MulMonotone(jitter, 99, delay);
    jitter * delay / 100
  }

  // calc_jitter, as a delay from now
  function Jittered(delay: nat, jitter: nat, rand: nat): (r: nat)
    ensures 1 <= delay && rand <= RAND_MAX ==> 1 <= r <= delay
    ensures jitter == 0 || jitter > 99 || delay > 0x100_0000 ==> r == delay
    ensures 1 <= delay && jitter <= 99 && rand <= RAND_MAX ==> 100 * (delay - r) <= jitter * delay
  {
    if jitter == 0 || jitter > 99 || delay > 0x100_0000 then delay
    else
      var spread := Spread(JitterTime(delay, jitter), rand);
      if spread <= delay then delay - spread else 0
  }

  // The random numbers are cut into stretches of one length, one for each millisecond the timer may be early.
  lemma {:induction false} JitterSpread(delay: nat, jitter: nat, rand: nat)
    requires 1 <= delay <= 0x100_0000 && 1 <= jitter <= 99 && rand <= RAND_MAX
    ensures var early, stretch := delay - Jittered(delay, jitter, rand), 1 + RAND_MAX / (jitter * delay / 100 + 1);
      early * stretch <= rand < (early + 1) * stretch
  {
    var t := jitter * delay / 100;
    ScaledRandom(t, rand);
    DivIs(rand, 1 + RAND_MAX / (t + 1));
  }

  lemma DivIs(x: nat, y: nat)
    requires y > 0
    ensures x / y * y <= x < (x / y + 1) * y
  {
  }

  lemma {:induction false} ScaledRandom(t: nat, rand: nat)
    ensures rand <= RAND_MAX ==> rand / (1 + RAND_MAX / (t + 1)) <= t
  {
    var q := RAND_MAX / (t + 1);
    assert RAND_MAX < (q + 1) * (t + 1);
    var r := rand / (1 + q);
    assert r * (1 + q) <= rand;
    MulMonotone(t + 1, r, 1 + q);
  }

  lemma MulMonotone(a: nat, b: nat, c: nat)
    ensures a <= b ==> a * c <= b * c
  {
  }

  // olsr_clock_isPast
  predicate IsPast(absolute: nat, now: nat)
  {
    if absolute > now then absolute - now > HORIZON else now - absolute <= HORIZON
  }

  lemma IsPastMeans(absolute: nat, now: nat)
    requires absolute <= now + HORIZON && now <= absolute + HORIZON
    ensures IsPast(absolute, now) <==> absolute <= now
  {
  }

  // ---- lists ----

  function Without(l: seq<Id>, id: Id): (r: seq<Id>)
    ensures forall x :: x in r <==> x in l && x != id
    ensures |r| <= |l|
  {
    if l == [] then [] else (if l[0] == id then [] else [l[0]]) + Without(l[1..], id)
  }

  ghost predicate Once(l: seq<Id>)
  {
    l == [] || (l[0] !in l[1..] && Once(l[1..]))
  }

  lemma {:induction false} OnceWithout(l: seq<Id>, id: Id)
    requires Once(l)
    ensures Once(Without(l, id))
  {
    if l != [] {
      OnceWithout(l[1..], id);
      var r := Without(l[1..], id);
      assert ([l[0]] + r)[1..] == r && [] + r == r;
    }
  }

  lemma {:induction false} OnceSnoc(l: seq<Id>, id: Id)
    requires Once(l) && id !in l
    ensures Once(l + [id])
  {
    if l != [] {
      OnceSnoc(l[1..], id);
      assert (l + [id])[1..] == l[1..] + [id];
    } else {
      assert (l + [id])[1..] == [];
    }
  }

  // ---- where timers are ----

  function Slot(t: Entry): nat { t.clock % SLOTS }

  // A slot lists timers that belong there, each once.
  ghost predicate SlotAt(w: Slots, ts: Timers, s: nat)
    requires s < |w|
  {
    Once(w[s]) && forall id :: id in w[s] ==> id in ts && Slot(ts[id]) == s
  }

  // A timer is in its slot, or on the list of those the walk of its slot has already looked at.
  ghost predicate HomeAt(w: Slots, seen: seq<Id>, cur: nat, ts: Timers, id: Id)
    requires |w| == SLOTS && id in ts
  {
    var s := Slot(ts[id]);
    if id in seen then s == cur && id !in w[s] else id in w[s]
  }

  ghost predicate Placed(w: Slots, seen: seq<Id>, cur: nat, ts: Timers)
  {
    && |w| == SLOTS && cur < SLOTS && Once(seen) && (forall id :: id in seen ==> id in ts)
    && (forall s {:trigger SlotAt(w, ts, s)} :: 0 <= s < SLOTS ==> SlotAt(w, ts, s))
    && (forall id {:trigger HomeAt(w, seen, cur, ts, id)} :: id in ts ==> HomeAt(w, seen, cur, ts, id))
  }

  lemma {:induction false} UnlinkKeeps(w: Slots, seen: seq<Id>, cur: nat, ts: Timers, id: Id)
    requires Placed(w, seen, cur, ts) && id in ts
    ensures Placed(w[Slot(ts[id]) := Without(w[Slot(ts[id])], id)], Without(seen, id), cur, ts - {id})
  {
    var s := Slot(ts[id]);
    var w', seen', ts' := w[s := Without(w[s], id)], Without(seen, id), ts - {id};
    OnceWithout(seen, id);
    forall k | 0 <= k < SLOTS
      ensures SlotAt(w', ts', k)
    {
      assert SlotAt(w, ts, k);
      OnceWithout(w[k], id);
    }
    forall x | x in ts'
      ensures HomeAt(w', seen', cur, ts', x)
    {
      assert HomeAt(w, seen, cur, ts, x);
    }
  }

  lemma {:induction false} LinkKeeps(w: Slots, seen: seq<Id>, cur: nat, ts: Timers, id: Id, t: Entry)
    requires Placed(w, seen, cur, ts) && id !in ts
    ensures Placed(w[Slot(t) := w[Slot(t)] + [id]], seen, cur, ts[id := t])
  {
    var s := Slot(t);
    var w', ts' := w[s := w[s] + [id]], ts[id := t];
    forall k | 0 <= k < SLOTS
      ensures SlotAt(w', ts', k)
    {
      assert SlotAt(w, ts, k);
      if k == s {
        OnceSnoc(w[s], id);
      }
    }
    forall x | x in ts'
      ensures HomeAt(w', seen, cur, ts', x)
    {
      if x != id {
        assert HomeAt(w, seen, cur, ts, x);
      }
    }
  }

  // The head of the slot being walked goes to the list of the seen.
  lemma {:induction false} ShiftKeeps(w: Slots, seen: seq<Id>, cur: nat, ts: Timers)
    requires Placed(w, seen, cur, ts) && w[cur] != []
    ensures w[cur][0] in ts && Slot(ts[w[cur][0]]) == cur && w[cur][0] !in seen
    ensures Placed(w[cur := w[cur][1..]], [w[cur][0]] + seen, cur, ts)
  {
    var id := w[cur][0];
    var w', seen' := w[cur := w[cur][1..]], [id] + seen;
    assert SlotAt(w, ts, cur) && id in w[cur];
    assert HomeAt(w, seen, cur, ts, id);
    assert seen'[1..] == seen && w[cur] == [id] + w[cur][1..];
    forall k | 0 <= k < SLOTS
      ensures SlotAt(w', ts, k)
    {
      assert SlotAt(w, ts, k);
    }
    forall x | x in ts
      ensures HomeAt(w', seen', cur, ts, x)
    {
      assert HomeAt(w, seen, cur, ts, x);
    }
  }

  lemma {:induction false} MergeKeeps(w: Slots, seen: seq<Id>, cur: nat, ts: Timers)
    requires Placed(w, seen, cur, ts) && w[cur] == []
    ensures Placed(w[cur := seen], [], cur, ts)
  {
    var w' := w[cur := seen];
    forall k | 0 <= k < SLOTS
      ensures SlotAt(w', ts, k)
    {
      assert SlotAt(w, ts, k);
      forall id | id in w'[k]
        ensures id in ts && Slot(ts[id]) == k
      {
        if k == cur {
          assert HomeAt(w, seen, cur, ts, id);
        }
      }
    }
    forall x | x in ts
      ensures HomeAt(w', [], cur, ts, x)
    {
      assert HomeAt(w, seen, cur, ts, x);
    }
  }

  // ---- the flat scheduler ----

  datatype Flat = Flat(timers: Timers, next: Id)

  // What a callback does to timers; on a timer that is not running it does nothing.
  datatype Action =
    | Start(delay: nat, jitter: nat, cls: Class, rand: nat)
    | Stop(id: Id)
    | Change(id: Id, delay: nat, jitter: nat)

  // The classes of timers that are periodic, and the current time.
  datatype Setting = Setting(periodic: set<Class>, now: nat)

  function Arm(c: Setting, delay: nat, jitter: nat, cls: Class, rand: nat): Entry
  {
    Entry(c.now + Jittered(delay, jitter, rand), if cls in c.periodic then delay else 0, jitter, cls, rand)
  }

  // The timer waits as long as it was told, less the jitter, if there is any.
  ghost predicate Waits(t: Entry, now: nat, delay: nat, jitter: nat)
  {
    && now < t.clock <= now + delay
    && (jitter == 0 || jitter > 99 || delay > 0x100_0000 ==> t.clock == now + delay)
    && (jitter <= 99 ==> 100 * (now + delay - t.clock) <= jitter * delay)
  }

  function Apply(c: Setting, f: Flat, a: Action): Flat
  {
    match a
    case Start(delay, jitter, cls, rand) => Flat(f.timers[f.next := Arm(c, delay, jitter, cls, rand)], f.next + 1)
    case Stop(id) => f.(timers := f.timers - {id})
    case Change(id, delay, jitter) =>
      if id in f.timers then f.(timers := f.timers[id := Arm(c, delay, jitter, f.timers[id].cls, f.timers[id].rand)])
        else f
  }

  function ApplyAll(c: Setting, f: Flat, acts: seq<Action>): Flat
  {
    if acts == [] then f else Apply(c, ApplyAll(c, f, acts[..|acts| - 1]), acts[|acts| - 1])
  }

  // A timer that fires: its callback runs, then it is armed again if it is periodic and still running, else it is gone.
  datatype Firing = Firing(id: Id, acts: seq<Action>, rand: nat)

  function Fire(c: Setting, f: Flat, e: Firing): Flat
  {
    Rearm(c, ApplyAll(c, f, e.acts), e.id, e.rand)
  }

  function Rearm(c: Setting, f: Flat, id: Id, rand: nat): Flat
  {
    if id !in f.timers then f
    else if f.timers[id].period != 0
      then f.(timers := f.timers[id := Arm(c, f.timers[id].period, f.timers[id].jitter, f.timers[id].cls, rand)])
    else f.(timers := f.timers - {id})
  }

  function Fires(c: Setting, f: Flat, log: seq<Firing>): Flat
  {
    if log == [] then f else Fire(c, Fires(c, f, log[..|log| - 1]), log[|log| - 1])
  }

  // Every timer of the log was running and due when it fired.
  ghost predicate AllDue(c: Setting, f: Flat, log: seq<Firing>)
  {
    log == [] || (
      var q, e := log[..|log| - 1], log[|log| - 1];
      AllDue(c, f, q) && e.id in Fires(c, f, q).timers && Fires(c, f, q).timers[e.id].clock <= c.now)
  }

  ghost function Due(c: Setting, ts: Timers): set<Id>
  {
    set id | id in ts && ts[id].clock <= c.now
  }

  // A timer that is due now was due before, and nobody touched it.
  ghost predicate DueKept(c: Setting, ts0: Timers, ts: Timers)
  {
    forall id :: id in ts && ts[id].clock <= c.now ==> id in ts0 && ts[id] == ts0[id]
  }

  predicate ActionOk(a: Action, classes: set<Class>)
  {
    match a
    case Start(delay, jitter, cls, rand) => 1 <= delay < HORIZON && jitter <= 100 && rand <= RAND_MAX && cls in classes
    case Stop(id) => true
    case Change(id, delay, jitter) => 1 <= delay < HORIZON && jitter <= 100
  }

  // A running timer is of a known class, expires at or after the given mark and not too far ahead.
  ghost predicate EntryOk(c: Setting, t: Entry, classes: set<Class>, mark: nat)
  {
    && mark <= t.clock <= c.now + HORIZON && t.cls in classes && t.jitter <= 100 && t.rand <= RAND_MAX
    && t.period < HORIZON && (t.period > 0 <==> t.cls in c.periodic)
  }

  ghost predicate FlatOk(c: Setting, f: Flat, classes: set<Class>, mark: nat)
  {
    forall id :: id in f.timers ==> id < f.next && EntryOk(c, f.timers[id], classes, mark)
  }

  lemma {:induction false} ArmOk(c: Setting, delay: nat, jitter: nat, cls: Class, rand: nat, classes: set<Class>,
                                 mark: nat)
    requires 1 <= delay < HORIZON && jitter <= 100 && rand <= RAND_MAX && cls in classes && mark <= c.now
    ensures EntryOk(c, Arm(c, delay, jitter, cls, rand), classes, mark)
      && Arm(c, delay, jitter, cls, rand).clock > c.now
    ensures Waits(Arm(c, delay, jitter, cls, rand), c.now, delay, jitter)
  {
  }

  // No action makes a timer due.
  lemma {:induction false} ApplyOk(c: Setting, f: Flat, a: Action, classes: set<Class>, mark: nat)
    requires FlatOk(c, f, classes, mark) && ActionOk(a, classes) && mark <= c.now
    ensures FlatOk(c, Apply(c, f, a), classes, mark) && DueKept(c, f.timers, Apply(c, f, a).timers)
  {
    match a
    case Start(delay, jitter, cls, rand) =>
      ArmOk(c, delay, jitter, cls, rand, classes, mark);
    case Stop(id) =>
    case Change(id, delay, jitter) =>
      if id in f.timers {
        ArmOk(c, delay, jitter, f.timers[id].cls, f.timers[id].rand, classes, mark);
      }
  }

  // A timer that has fired is not due any more.
  lemma {:induction false} RearmOk(c: Setting, f: Flat, id: Id, rand: nat, classes: set<Class>, mark: nat)
    requires FlatOk(c, f, classes, mark) && rand <= RAND_MAX && mark <= c.now
    ensures FlatOk(c, Rearm(c, f, id, rand), classes, mark)
    ensures DueKept(c, f.timers, Rearm(c, f, id, rand).timers) && id !in Due(c, Rearm(c, f, id, rand).timers)
  {
    if id in f.timers && f.timers[id].period != 0 {
      var t := f.timers[id];
      ArmOk(c, t.period, t.jitter, t.cls, rand, classes, mark);
    }
  }

  // ---- what a run of firings means for one timer ----

  // The action is not about this timer.
  predicate Leaves(a: Action, id: Id)
  {
    match a
    case Start(delay, jitter, cls, rand) => true
    case Stop(x) => x != id
    case Change(x, delay, jitter) => x != id
  }

  ghost predicate Spared(log: seq<Firing>, id: Id)
  {
    forall i, a :: 0 <= i < |log| && a in log[i].acts ==> Leaves(a, id)
  }

  ghost predicate Fired(log: seq<Firing>, id: Id)
  {
    exists i :: 0 <= i < |log| && log[i].id == id
  }

  ghost predicate FiringOk(e: Firing, classes: set<Class>)
  {
    e.rand <= RAND_MAX && forall a :: a in e.acts ==> ActionOk(a, classes)
  }

  ghost predicate LogOk(log: seq<Firing>, classes: set<Class>)
  {
    forall i :: 0 <= i < |log| ==> FiringOk(log[i], classes)
  }

  // Stopped timers do not come back, and no new one takes the name of an old one.
  ghost predicate Older(f: Flat, g: Flat)
  {
    f.next <= g.next && forall id :: id < f.next && id in g.timers ==> id in f.timers
  }

  lemma {:induction false} ApplyAllOk(c: Setting, f: Flat, acts: seq<Action>, classes: set<Class>, mark: nat)
    requires FlatOk(c, f, classes, mark) && mark <= c.now && forall a :: a in acts ==> ActionOk(a, classes)
    ensures var g := ApplyAll(c, f, acts); FlatOk(c, g, classes, mark) && DueKept(c, f.timers, g.timers) && Older(f, g)
  {
    if acts != [] {
      var q, a := acts[..|acts| - 1], acts[|acts| - 1];
      ApplyAllOk(c, f, q, classes, mark);
      ApplyOk(c, ApplyAll(c, f, q), a, classes, mark);
    }
  }

  lemma {:induction false} ApplyAllLeaves(c: Setting, f: Flat, acts: seq<Action>, id: Id)
    requires id in f.timers && id < f.next && forall a :: a in acts ==> Leaves(a, id)
    ensures var g := ApplyAll(c, f, acts); f.next <= g.next && id in g.timers && g.timers[id] == f.timers[id]
  {
    if acts != [] {
      ApplyAllLeaves(c, f, acts[..|acts| - 1], id);
      assert Leaves(acts[|acts| - 1], id);
    }
  }

  lemma {:induction false} FireOk(c: Setting, f: Flat, e: Firing, classes: set<Class>, mark: nat)
    requires FlatOk(c, f, classes, mark) && mark <= c.now && FiringOk(e, classes)
    ensures var g := Fire(c, f, e);
      FlatOk(c, g, classes, mark) && DueKept(c, f.timers, g.timers) && Older(f, g) && e.id !in Due(c, g.timers)
  {
    ApplyAllOk(c, f, e.acts, classes, mark);
    RearmOk(c, ApplyAll(c, f, e.acts), e.id, e.rand, classes, mark);
  }

  lemma {:induction false} FiresOk(c: Setting, f: Flat, log: seq<Firing>, classes: set<Class>, mark: nat)
    requires FlatOk(c, f, classes, mark) && mark <= c.now && LogOk(log, classes)
    ensures var g := Fires(c, f, log); FlatOk(c, g, classes, mark) && DueKept(c, f.timers, g.timers) && Older(f, g)
    ensures forall i :: 0 <= i < |log| ==> log[i].id !in Due(c, Fires(c, f, log).timers)
  {
    if log != [] {
      var q, e := log[..|log| - 1], log[|log| - 1];
      FiresOk(c, f, q, classes, mark);
      FireOk(c, Fires(c, f, q), e, classes, mark);
      forall i | 0 <= i < |q|
        ensures log[i].id !in Due(c, Fires(c, f, log).timers)
      {
        assert q[i] == log[i];
      }
    }
  }

  // No timer fires twice in one walk.
  lemma {:induction false} FiresOnce(c: Setting, f: Flat, log: seq<Firing>, classes: set<Class>, mark: nat)
    requires FlatOk(c, f, classes, mark) && mark <= c.now && LogOk(log, classes) && AllDue(c, f, log)
    ensures forall i, j :: 0 <= i < j < |log| ==> log[i].id != log[j].id
  {
    if log != [] {
      var q := log[..|log| - 1];
      FiresOnce(c, f, q, classes, mark);
      FiresOk(c, f, q, classes, mark);
      forall i, j | 0 <= i < j < |log|
        ensures log[i].id != log[j].id
      {
        assert q[i] == log[i] && (j < |q| ==> q[j] == log[j]);
      }
    }
  }

  // The timer has been started again: it waits as at first, and is the same otherwise.
  ghost predicate Renewed(t: Entry, t': Entry, now: nat)
  {
    t'.cls == t.cls && t'.period == t.period && t'.jitter == t.jitter && Waits(t', now, t.period, t.jitter)
  }

  // What becomes of a timer that no callback stops or changes: one that fires runs on if it is periodic and is gone if
  // it is not, one that does not fire stays as it is.
  ghost predicate Fate(c: Setting, ts: Timers, ts': Timers, id: Id, fired: bool)
    requires id in ts
  {
    if !fired then id in ts' && ts'[id] == ts[id]
    else if ts[id].cls in c.periodic then id in ts' && Renewed(ts[id], ts'[id], c.now)
    else id !in ts'
  }

  lemma {:induction false} FireFate(c: Setting, f: Flat, e: Firing, classes: set<Class>, mark: nat, id: Id)
    requires FlatOk(c, f, classes, mark) && mark <= c.now && FiringOk(e, classes) && id in f.timers
    requires forall a :: a in e.acts ==> Leaves(a, id)
    ensures Fate(c, f.timers, Fire(c, f, e).timers, id, e.id == id)
  {
    var g := ApplyAll(c, f, e.acts);
    ApplyAllOk(c, f, e.acts, classes, mark);
    ApplyAllLeaves(c, f, e.acts, id);
    assert EntryOk(c, f.timers[id], classes, mark);
    if e.id == id && f.timers[id].period > 0 {
      ArmOk(c, f.timers[id].period, f.timers[id].jitter, f.timers[id].cls, e.rand, classes, mark);
    }
  }

  lemma {:induction false} FiresFate(c: Setting, f: Flat, log: seq<Firing>, classes: set<Class>, mark: nat, id: Id)
    requires FlatOk(c, f, classes, mark) && mark <= c.now && LogOk(log, classes) && AllDue(c, f, log)
    requires id in f.timers && Spared(log, id)
    ensures Fate(c, f.timers, Fires(c, f, log).timers, id, Fired(log, id))
    ensures Fired(log, id) ==> f.timers[id].clock <= c.now
  {
    if log != [] {
      var q, e := log[..|log| - 1], log[|log| - 1];
      assert forall i, a :: 0 <= i < |q| && a in q[i].acts ==> a in log[i].acts;
      FiresFate(c, f, q, classes, mark, id);
      FiresOk(c, f, q, classes, mark);
      FiredOn(log, id);
      var g := Fires(c, f, q);
      if id in g.timers {
        FireFate(c, g, e, classes, mark, id);
      } else {
        FireOk(c, g, e, classes, mark);
      }
    }
  }

  lemma {:induction false} FiredOn(log: seq<Firing>, id: Id)
    requires log != []
    ensures Fired(log, id) <==> Fired(log[..|log| - 1], id) || log[|log| - 1].id == id
  {
    var q := log[..|log| - 1];
    if Fired(q, id) {
      var i :| 0 <= i < |q| && q[i].id == id;
      assert log[i].id == id;
    }
    if Fired(log, id) {
      var i :| 0 <= i < |log| && log[i].id == id;
      assert i < |q| ==> q[i].id == id;
    }
  }

  // A walk that leaves nothing due fires exactly what was due, among the timers that no callback stops or changes.
  ghost predicate Fair(c: Setting, ts: Timers, ts': Timers, log: seq<Firing>)
  {
    && (forall i, j :: 0 <= i < j < |log| ==> log[i].id != log[j].id)
    && forall id {:trigger Spared(log, id)} :: id in ts && Spared(log, id) ==>
      (Fired(log, id) <==> ts[id].clock <= c.now) && Fate(c, ts, ts', id, Fired(log, id))
  }

  lemma {:induction false} WalkFair(c: Setting, f: Flat, log: seq<Firing>, classes: set<Class>, mark: nat)
    requires FlatOk(c, f, classes, mark) && mark <= c.now && LogOk(log, classes) && AllDue(c, f, log)
    requires Due(c, Fires(c, f, log).timers) == {}
    ensures Fair(c, f.timers, Fires(c, f, log).timers, log)
  {
    FiresOnce(c, f, log, classes, mark);
    var ts' := Fires(c, f, log).timers;
    forall id | id in f.timers && Spared(log, id)
      ensures (Fired(log, id) <==> f.timers[id].clock <= c.now) && Fate(c, f.timers, ts', id, Fired(log, id))
    {
      FiresFate(c, f, log, classes, mark, id);
      assert id !in Due(c, ts');
    }
  }

  // ---- usage counts ----

  ghost function Members(ts: Timers, c: Class): set<Id>
  {
    set id | id in ts && ts[id].cls == c
  }

  // Every class counts its running timers.
  ghost predicate Counted(ts: Timers, usage: map<Class, nat>)
  {
    forall c :: c in usage ==> usage[c] == |Members(ts, c)|
  }

  lemma {:induction false} MembersMore(ts: Timers, id: Id, t: Entry, c: Class)
    requires id !in ts
    ensures |Members(ts[id := t], c)| == |Members(ts, c)| + if c == t.cls then 1 else 0
  {
    if c == t.cls {
      assert Members(ts[id := t], c) == Members(ts, c) + {id};
    } else {
      assert Members(ts[id := t], c) == Members(ts, c);
    }
  }

  lemma {:induction false} CountedMore(ts: Timers, usage: map<Class, nat>, id: Id, t: Entry)
    requires Counted(ts, usage) && id !in ts && t.cls in usage
    ensures Counted(ts[id := t], usage[t.cls := usage[t.cls] + 1])
  {
    forall c | c in usage
      ensures |Members(ts[id := t], c)| == |Members(ts, c)| + if c == t.cls then 1 else 0
    {
      MembersMore(ts, id, t, c);
    }
  }

  lemma {:induction false} CountedLess(ts: Timers, usage: map<Class, nat>, id: Id)
    requires Counted(ts, usage) && id in ts && ts[id].cls in usage
    ensures usage[ts[id].cls] > 0 && Counted(ts - {id}, usage[ts[id].cls := usage[ts[id].cls] - 1])
  {
    assert id in Members(ts, ts[id].cls);
    forall c | c in usage
      ensures |Members(ts - {id}, c)| == |Members(ts, c)| - if c == ts[id].cls then 1 else 0
    {
      assert Members(ts - {id}, c) == if c == ts[id].cls then Members(ts, c) - {id} else Members(ts, c);
    }
  }

  lemma {:induction false} CountedSame(ts: Timers, usage: map<Class, nat>, id: Id, t: Entry)
    requires Counted(ts, usage) && id in ts && t.cls == ts[id].cls
    ensures Counted(ts[id := t], usage)
  {
    forall c | c in usage
      ensures Members(ts[id := t], c) == Members(ts, c)
    {
    }
  }

  // The timers still on the list of the seen are as they were.
  ghost predicate SeenKept(seen0: seq<Id>, ts0: Timers, seen: seq<Id>, ts: Timers)
  {
    forall id :: id in seen ==> id in seen0 && id in ts0 && id in ts && ts[id] == ts0[id]
  }

  lemma {:induction false} KeptOn(c: Setting, seen0: seq<Id>, ts0: Timers, seen1: seq<Id>, ts1: Timers, seen: seq<Id>,
                                  ts: Timers)
    requires SeenKept(seen0, ts0, seen1, ts1) && SeenKept(seen1, ts1, seen, ts) && DueKept(c, ts0, ts1)
      && DueKept(c, ts1, ts)
    ensures SeenKept(seen0, ts0, seen, ts) && DueKept(c, ts0, ts)
  {
  }

  // No timer of the slot is due.
  ghost predicate SlotClear(c: Setting, ts: Timers, s: nat)
  {
    forall id :: id in ts && Slot(ts[id]) == s ==> ts[id].clock > c.now
  }

  ghost predicate NotDue(c: Setting, seen: seq<Id>, ts: Timers)
  {
    forall id :: id in seen ==> id in ts && ts[id].clock > c.now
  }

  lemma {:induction false} DueTrans(c: Setting, ts0: Timers, ts1: Timers, ts: Timers)
    requires DueKept(c, ts0, ts1) && DueKept(c, ts1, ts)
    ensures DueKept(c, ts0, ts)
  {
  }

  // Fewer timers are due after one of them has fired.
  lemma {:induction false} DueShrinks(c: Setting, ts0: Timers, ts: Timers, id: Id)
    requires DueKept(c, ts0, ts) && id in Due(c, ts0) && id !in Due(c, ts)
    ensures Due(c, ts) < Due(c, ts0)
  {
  }

  class Scheduler {
    const periodic: set<Class>
    const wheel: array<seq<Id>>
    var now: nat
    var lastRun: nat
    var next: Id
    var timers: Timers
    var seen: seq<Id>
    var usage: map<Class, nat>
    // the slot being walked, and the time from which on timers may be pending
    ghost var cur: nat
    ghost var mark: nat

    function Now(): Setting
      reads this`now
    {
      Setting(periodic, now)
    }

    ghost function State(): Flat
      reads this`timers, this`next
    {
      Flat(timers, next)
    }

    ghost predicate Sound()
      reads this, wheel
    {
      && wheel.Length == SLOTS && Placed(wheel[..], seen, cur, timers) && mark <= now
      && FlatOk(Now(), State(), usage.Keys, mark) && Counted(timers, usage)
    }

    // A timer just started or changed.
    ghost predicate Armed(t: Entry, delay: nat, jitter: nat)
      reads this`now
    {
      Waits(t, now, delay, jitter) && t.period == (if t.cls in periodic then delay else 0) && t.jitter == jitter
    }

    // list_remove
    method Unlink(id: Id)
      requires wheel.Length == SLOTS && Placed(wheel[..], seen, cur, timers) && id in timers
      modifies this`seen, wheel
      ensures Placed(wheel[..], seen, cur, timers - {id}) && seen == Without(old(seen), id)
    {
      UnlinkKeeps(wheel[..], seen, cur, timers, id);
      var s := timers[id].clock % SLOTS;
      ghost var w := wheel[..];
      wheel[s] := Without(wheel[s], id);
      seen := Without(seen, id);
      assert wheel[..] == w[s := Without(w[s], id)];
    }

    // list_add_before on the head of the timer's slot
    method Link(id: Id, t: Entry, ghost ts: Timers)
      requires wheel.Length == SLOTS && Placed(wheel[..], seen, cur, ts) && id !in ts
      modifies wheel
      ensures Placed(wheel[..], seen, cur, ts[id := t])
    {
      LinkKeeps(wheel[..], seen, cur, ts, id, t);
      var s := t.clock % SLOTS;
      ghost var w := wheel[..];
      wheel[s] := wheel[s] + [id];
      assert wheel[..] == w[s := w[s] + [id]];
    }

    // olsr_timer_start
    method StartTimer(delay: nat, jitter: nat, cls: Class, rand: nat) returns (id: Id)
      requires Sound() && ActionOk(Start(delay, jitter, cls, rand), usage.Keys)
      modifies this`timers, this`next, this`usage, wheel
      ensures Sound() && id == old(next) && State() == Apply(Now(), old(State()), Start(delay, jitter, cls, rand))
      ensures usage.Keys == old(usage).Keys && SeenKept(seen, old(timers), seen, timers)
      ensures id !in old(timers) && timers == old(timers)[id := timers[id]]
        && Armed(timers[id], delay, jitter) && timers[id].cls == cls
    {
      ArmOk(Now(), delay, jitter, cls, rand, usage.Keys, mark);
      id := Enter(Arm(Now(), delay, jitter, cls, rand));
    }

    method Enter(t: Entry) returns (id: Id)
      requires Sound() && EntryOk(Now(), t, usage.Keys, mark)
      modifies this`timers, this`next, this`usage, wheel
      ensures Sound() && id == old(next) && id !in old(timers) && timers == old(timers)[id := t] && next == id + 1
      ensures usage.Keys == old(usage).Keys && forall x :: x in seen ==> x in old(timers)
    {
      assert next !in timers;
      id, next := next, next + 1;
      CountedMore(timers, usage, id, t);
      Link(id, t, timers);
      timers := timers[id := t];
      usage := usage[t.cls := usage[t.cls] + 1];
    }

    // olsr_timer_stop
    method StopTimer(id: Id)
      requires Sound() && id in timers
      modifies this`timers, this`seen, this`usage, wheel
      ensures Sound() && State() == Apply(Now(), old(State()), Stop(id)) && timers == old(timers) - {id}
      ensures usage.Keys == old(usage).Keys && SeenKept(old(seen), old(timers), seen, timers)
        && seen == Without(old(seen), id)
    {
      ApplyOk(Now(), State(), Stop(id), usage.Keys, mark);
      assert EntryOk(Now(), timers[id], usage.Keys, mark);
      CountedLess(timers, usage, id);
      Unlink(id);
      usage := usage[timers[id].cls := usage[timers[id].cls] - 1];
      timers := timers - {id};
    }

    // olsr_timer_change
    method ChangeTimer(id: Id, delay: nat, jitter: nat, rand: nat)
      requires Sound() && id in timers && 1 <= delay < HORIZON && jitter <= 100 && rand <= RAND_MAX
      modifies this`timers, this`seen, wheel
      ensures Sound() && timers == old(timers)[id := Arm(Now(), delay, jitter, old(timers)[id].cls, rand)]
      ensures SeenKept(old(seen), old(timers), seen, timers) && seen == Without(old(seen), id)
      ensures Armed(timers[id], delay, jitter) && timers[id].cls == old(timers)[id].cls
    {
      assert EntryOk(Now(), timers[id], usage.Keys, mark);
      var t := Arm(Now(), delay, jitter, timers[id].cls, rand);
      ArmOk(Now(), delay, jitter, timers[id].cls, rand, usage.Keys, mark);
      CountedSame(timers, usage, id, t);
      Unlink(id);
      Link(id, t, timers - {id});
      assert (timers - {id})[id := t] == timers[id := t];
      timers := timers[id := t];
    }

    // One thing a callback does; stopping or changing is only done to running timers.
    method Do(a: Action)
      requires Sound() && ActionOk(a, usage.Keys)
      modifies this`timers, this`next, this`seen, this`usage, wheel
      ensures Sound() && State() == Apply(Now(), old(State()), a) && usage.Keys == old(usage).Keys
      ensures SeenKept(old(seen), old(timers), seen, timers) && DueKept(Now(), old(timers), timers)
    {
      ApplyOk(Now(), State(), a, usage.Keys, mark);
      match a
      case Start(delay, jitter, cls, rand) =>
        var id := StartTimer(delay, jitter, cls, rand);
        assert forall x :: x in seen ==> x in old(timers);
      case Stop(id) =>
        if id in timers {
          StopTimer(id);
        } else {
          assert timers - {id} == timers;
        }
      case Change(id, delay, jitter) =>
        if id in timers {
          assert EntryOk(Now(), timers[id], usage.Keys, mark);
          ChangeTimer(id, delay, jitter, timers[id].rand);
        }
    }

    method RunCallback(acts: seq<Action>)
      requires Sound() && forall a :: a in acts ==> ActionOk(a, usage.Keys)
      modifies this`timers, this`next, this`seen, this`usage, wheel
      ensures Sound() && State() == ApplyAll(Now(), old(State()), acts) && usage.Keys == old(usage).Keys
      ensures SeenKept(old(seen), old(timers), seen, timers) && DueKept(Now(), old(timers), timers)
    {
      for i := 0 to |acts|
        invariant Sound() && State() == ApplyAll(Now(), old(State()), acts[..i]) && usage.Keys == old(usage).Keys
        invariant SeenKept(old(seen), old(timers), seen, timers) && DueKept(Now(), old(timers), timers)
      {
        assert acts[..i + 1][..i] == acts[..i];
        Do(acts[i]);
      }
      assert acts[..|acts|] == acts;
    }

    // The callback of an expired timer, and what the walk does with the timer afterwards.
    method FireTimer(e: Firing)
      requires Sound() && e.id in timers && e.id in seen && e.rand <= RAND_MAX
        && forall a :: a in e.acts ==> ActionOk(a, usage.Keys)
      modifies this`timers, this`next, this`seen, this`usage, wheel
      ensures Sound() && State() == Fire(Now(), old(State()), e) && usage.Keys == old(usage).Keys
      ensures SeenKept(old(seen), old(timers), seen, timers) && e.id !in seen && DueKept(Now(), old(timers), timers)
        && e.id !in Due(Now(), timers)
    {
      RunCallback(e.acts);
      ghost var mid, midSeen := timers, seen;
      Restart(e.id, e.rand);
      KeptOn(Now(), old(seen), old(timers), midSeen, mid, seen, timers);
    }

    method Restart(id: Id, rand: nat)
      requires Sound() && rand <= RAND_MAX && (id in seen ==> id in timers)
      modifies this`timers, this`seen, this`usage, wheel
      ensures Sound() && State() == Rearm(Now(), old(State()), id, rand) && usage.Keys == old(usage).Keys
      ensures SeenKept(old(seen), old(timers), seen, timers) && id !in seen && DueKept(Now(), old(timers), timers)
        && id !in Due(Now(), timers)
    {
      RearmOk(Now(), State(), id, rand, usage.Keys, mark);
      if id in timers {
        assert EntryOk(Now(), timers[id], usage.Keys, mark);
        if timers[id].period != 0 {
          ChangeTimer(id, timers[id].period, timers[id].jitter, rand);
        } else {
          StopTimer(id);
        }
      }
    }

    // What a walk keeps: the log so far is a run of the flat scheduler from f, each timer in it due when it fired.
    ghost predicate Tracks(f: Flat, log: seq<Firing>, classes: set<Class>)
      reads this, wheel
    {
      && Sound() && State() == Fires(Now(), f, log) && AllDue(Now(), f, log) && LogOk(log, classes)
      && usage.Keys == classes && now <= mark + HORIZON
    }

    // The walk of one slot: all entries of the list in turn, each moved to the list of the seen before it may fire.
    method WalkSlot(s: nat, script: nat -> Reply, log0: seq<Firing>, ghost f: Flat,
                    ghost classes: set<Class>) returns (log: seq<Firing>)
      requires Tracks(f, log0, classes) && seen == [] && s < SLOTS && ScriptOk(script, classes)
      modifies this`timers, this`next, this`seen, this`usage, this`cur, wheel
      ensures Tracks(f, log, classes) && seen == [] && DueKept(Now(), old(timers), timers)
      ensures SlotClear(Now(), timers, s)
    {
      CurFree(wheel[..], cur, s, timers);
      log, cur := log0, s;
      ghost var ts := timers;
      while wheel[s] != []
        invariant Tracks(f, log, classes) && cur == s && NotDue(Now(), seen, timers) && DueKept(Now(), ts, timers)
        decreases Due(Now(), timers), |wheel[s]|
      {
        ghost var ts1 := timers;
        log := WalkEntry(s, script, log, f, classes);
        DueTrans(Now(), ts, ts1, timers);
      }
      Merge(s);
    }

    method WalkEntry(s: nat, script: nat -> Reply, log0: seq<Firing>, ghost f: Flat,
                     ghost classes: set<Class>) returns (log: seq<Firing>)
      requires Tracks(f, log0, classes) && s < SLOTS && cur == s && wheel[s] != [] && ScriptOk(script, classes)
        && NotDue(Now(), seen, timers)
      modifies this`timers, this`next, this`seen, this`usage, wheel
      ensures Tracks(f, log, classes) && NotDue(Now(), seen, timers) && DueKept(Now(), old(timers), timers)
      ensures Due(Now(), timers) < Due(Now(), old(timers)) || (timers == old(timers) && |wheel[s]| < |old(wheel[s])|)
    {
      log := log0;
      ghost var ts, sn := timers, seen;
      var id := Shift(s);
      if IsPast(timers[id].clock, now) {
        var reply := script(|log|);
        log := FireLogged(Firing(id, reply.acts, reply.rand), log, f, classes);
        DueShrinks(Now(), ts, timers, id);
      }
    }

    // The first entry of the slot goes to the list of the seen.
    method Shift(s: nat) returns (id: Id)
      requires Sound() && s < SLOTS && cur == s && wheel[s] != [] && now <= mark + HORIZON
      modifies this`seen, wheel
      ensures Sound() && id in timers && seen == [id] + old(seen) && |wheel[s]| < |old(wheel[s])|
      ensures IsPast(timers[id].clock, now) <==> timers[id].clock <= now
    {
      id := wheel[s][0];
      ShiftKeeps(wheel[..], seen, s, timers);
      ghost var w := wheel[..];
      wheel[s] := wheel[s][1..];
      seen := [id] + seen;
      assert wheel[..] == w[s := w[s][1..]];
      assert EntryOk(Now(), timers[id], usage.Keys, mark);
      IsPastMeans(timers[id].clock, now);
    }

    method FireLogged(e: Firing, log0: seq<Firing>, ghost f: Flat, ghost classes: set<Class>) returns (log: seq<Firing>)
      requires Tracks(f, log0, classes) && e.id in timers && e.id in seen && timers[e.id].clock <= now
      requires FiringOk(e, classes)
      modifies this`timers, this`next, this`seen, this`usage, wheel
      ensures Tracks(f, log, classes)
      ensures SeenKept(old(seen), old(timers), seen, timers) && e.id !in seen && DueKept(Now(), old(timers), timers)
        && e.id !in Due(Now(), timers)
    {
      FireTimer(e);
      log := log0 + [e];
      assert log[..|log| - 1] == log0;
    }

    // list_merge of the seen back into their slot
    method Merge(s: nat)
      requires Sound() && s < SLOTS && cur == s && wheel[s] == [] && NotDue(Now(), seen, timers)
      modifies this`seen, wheel
      ensures Sound() && seen == []
      ensures SlotClear(Now(), timers, s)
    {
      Emptied(wheel[..], seen, s, timers, now);
      MergeKeeps(wheel[..], seen, s, timers);
      ghost var w := wheel[..];
      wheel[s] := seen;
      assert wheel[..] == w[s := seen];
      seen := [];
    }

    // Between two walks nothing pending lies before the last one.
    ghost predicate Valid()
      reads this, wheel
    {
      Sound() && seen == [] && mark == lastRun
    }

    constructor (periodic: set<Class>, classes: set<Class>, now: nat)
      ensures Valid() && timers == map[] && this.now == now && usage.Keys == classes && this.periodic == periodic
        && fresh(wheel)
    {
      this.periodic, this.now, lastRun, mark, cur := periodic, now, now, now, 0;
      next, timers, seen := 0, map[], [];
      usage := map c | c in classes :: 0;
      wheel := new seq<Id>[SLOTS](i => []);
      new;
      forall s | 0 <= s < SLOTS
        ensures SlotAt(wheel[..], timers, s)
      {
      }
      forall c | c in usage
        ensures Members(timers, c) == {}
      {
      }
    }

    // olsr_clock_update
    method Tick(t: nat)
      requires Valid() && now <= t
      modifies this`now
      ensures Valid() && now == t
    {
      now := t;
    }

    // olsr_timer_set
    method SetTimer(timer: Option<Id>, delay: nat, jitter: nat, cls: Class, rand: nat) returns (timer': Option<Id>)
      requires Valid() && (timer.Some? ==> timer.value in timers) && delay < HORIZON && jitter <= 100 && cls in usage
        && rand <= RAND_MAX
      modifies this`timers, this`next, this`seen, this`usage, wheel
      ensures Valid() && (timer'.Some? <==> delay != 0)
        && (timer'.Some? ==> timer'.value in timers && Armed(timers[timer'.value], delay, jitter))
      ensures forall id :: id in timers && timer' != Some(id) ==> id in old(timers) && timers[id] == old(timers)[id]
      ensures forall id :: id in old(timers) && timer != Some(id) ==> id in timers
    {
      timer' := timer;
      if delay == 0 {
        if timer.Some? {
          StopTimer(timer.value);
        }
        timer' := None;
      } else {
        timer' := ArmTimer(timer, delay, jitter, cls, rand);
      }
    }

    method ArmTimer(timer: Option<Id>, delay: nat, jitter: nat, cls: Class, rand: nat) returns (timer': Option<Id>)
      requires Valid() && (timer.Some? ==> timer.value in timers) && 0 < delay < HORIZON && jitter <= 100
        && cls in usage && rand <= RAND_MAX
      modifies this`timers, this`next, this`seen, this`usage, wheel
      ensures Valid() && timer'.Some? && timer'.value in timers && Armed(timers[timer'.value], delay, jitter)
      ensures forall id :: id in timers && timer' != Some(id) ==> id in old(timers) && timers[id] == old(timers)[id]
      ensures forall id :: id in old(timers) ==> id in timers
    {
      timer' := timer;
      if timer == None {
        assert forall id :: id in timers ==> id < next;
        var id := StartTimer(delay, jitter, cls, rand);
        timer' := Some(id);
      } else {
        assert EntryOk(Now(), timers[timer.value], usage.Keys, mark);
        ChangeTimer(timer.value, delay, jitter, timers[timer.value].rand);
      }
    }

    // olsr_timer_walk: a run of the flat scheduler that fires only what is due and leaves nothing due
    method Walk(script: nat -> Reply) returns (log: seq<Firing>)
      requires Valid() && now <= lastRun + HORIZON && ScriptOk(script, usage.Keys)
      modifies this`timers, this`next, this`seen, this`usage, this`cur, this`lastRun, this`mark, wheel
      ensures Valid() && lastRun == now && usage.Keys == old(usage).Keys
      ensures State() == Fires(Now(), old(State()), log) && AllDue(Now(), old(State()), log)
      ensures Due(Now(), timers) == {} && Fair(Now(), old(timers), timers, log)
    {
      log := [];
      var slotWalks := 0;
      ghost var f, classes := State(), usage.Keys;
      while lastRun <= now && slotWalks < SLOTS
        invariant Tracks(f, log, classes) && seen == [] && lastRun == mark + slotWalks && slotWalks <= SLOTS
        invariant mark == old(mark) && DueLater(Now(), timers, mark, slotWalks)
        decreases SLOTS - slotWalks
      {
        log := WalkNext(script, log, f, classes, slotWalks);
        slotWalks := slotWalks + 1;
      }
      NothingDue(Now(), timers, mark, slotWalks, next, usage.Keys);
      WalkFair(Now(), f, log, classes, mark);
      EndWalk();
    }

    method WalkNext(script: nat -> Reply, log0: seq<Firing>, ghost f: Flat, ghost classes: set<Class>,
                    ghost k: nat) returns (log: seq<Firing>)
      requires Tracks(f, log0, classes) && seen == [] && ScriptOk(script, classes) && lastRun == mark + k
        && DueLater(Now(), timers, mark, k)
      modifies this`timers, this`next, this`seen, this`usage, this`cur, this`lastRun, wheel
      ensures Tracks(f, log, classes) && seen == [] && lastRun == mark + k + 1 && DueLater(Now(), timers, mark, k + 1)
    {
      ghost var ts := timers;
      var s := lastRun % SLOTS;
      log := WalkSlot(s, script, log0, f, classes);
      LaterOn(Now(), ts, timers, mark, k, s);
      lastRun := lastRun + 1;
    }

    // The time of this walk is the mark for the next one.
    method EndWalk()
      requires Sound() && seen == [] && Due(Now(), timers) == {}
      modifies this`lastRun, this`mark
      ensures Valid() && lastRun == now
    {
      MarkUp(Now(), State(), usage.Keys, mark);
      lastRun := now;
      mark := now;
    }
  }

  // No due timer is in one of the first k slots from the mark on.
  ghost predicate DueLater(c: Setting, ts: Timers, mark: nat, k: nat)
  {
    forall id :: id in ts && ts[id].clock <= c.now ==> Later(ts[id].clock, mark, k)
  }

  ghost predicate Later(clock: nat, mark: nat, k: nat)
  {
    forall j {:trigger Apart(clock, mark, j)} :: 0 <= j < k ==> Apart(clock, mark, j)
  }

  ghost predicate Apart(clock: nat, mark: nat, j: nat) { clock % SLOTS != (mark + j) % SLOTS }

  lemma {:induction false} LaterOn(c: Setting, ts0: Timers, ts: Timers, mark: nat, k: nat, s: nat)
    requires DueLater(c, ts0, mark, k) && DueKept(c, ts0, ts) && s == (mark + k) % SLOTS && SlotClear(c, ts, s)
    ensures DueLater(c, ts, mark, k + 1)
  {
    forall id | id in ts && ts[id].clock <= c.now
      ensures Later(ts[id].clock, mark, k + 1)
    {
      assert Later(ts0[id].clock, mark, k) && Apart(ts[id].clock, mark, k);
    }
  }

  // A timer due between the mark and now is in one of the slots from the mark to now, or the wheel went all around.
  lemma {:induction false} NothingDue(c: Setting, ts: Timers, mark: nat, k: nat, next: Id, classes: set<Class>)
    requires DueLater(c, ts, mark, k) && FlatOk(c, Flat(ts, next), classes, mark) && (mark + k > c.now || k == SLOTS)
    ensures Due(c, ts) == {}
  {
    forall id | id in ts
      ensures ts[id].clock > c.now
    {
      var clock := ts[id].clock;
      assert EntryOk(c, ts[id], classes, mark);
      assert clock <= c.now ==> Later(clock, mark, k);
      var j := if mark + k > c.now then clock - mark else (clock - mark) % SLOTS;
      SameSlot(clock, mark, j);
    }
  }

  // With nothing due, the present can be the new mark.
  lemma {:induction false} MarkUp(c: Setting, f: Flat, classes: set<Class>, mark: nat)
    requires FlatOk(c, f, classes, mark) && Due(c, f.timers) == {}
    ensures FlatOk(c, f, classes, c.now)
  {
    forall id | id in f.timers
      ensures id < f.next && EntryOk(c, f.timers[id], classes, c.now)
    {
      assert id !in Due(c, f.timers);
    }
  }

  lemma SameSlot(clock: nat, mark: nat, j: nat)
    requires mark <= clock && (j == clock - mark || j == (clock - mark) % SLOTS)
    ensures !Apart(clock, mark, j)
  {
  }

  // What the outside world does when a timer fires: the actions of its callback, and a new random number.
  datatype Reply = Reply(acts: seq<Action>, rand: nat)

  ghost predicate ScriptOk(script: nat -> Reply, classes: set<Class>)
  {
    forall i :: script(i).rand <= RAND_MAX && forall a :: a in script(i).acts ==> ActionOk(a, classes)
  }

  lemma {:induction false} CurFree(w: Slots, cur: nat, cur': nat, ts: Timers)
    requires Placed(w, [], cur, ts) && cur' < SLOTS
    ensures Placed(w, [], cur', ts)
  {
    forall x | x in ts
      ensures HomeAt(w, [], cur', ts, x)
    {
      assert HomeAt(w, [], cur, ts, x);
    }
  }

  lemma {:induction false} Emptied(w: Slots, seen: seq<Id>, s: nat, ts: Timers, now: nat)
    requires Placed(w, seen, s, ts) && w[s] == [] && forall id :: id in seen ==> ts[id].clock > now
    ensures forall id :: id in ts && Slot(ts[id]) == s ==> ts[id].clock > now
  {
    forall id | id in ts && Slot(ts[id]) == s
      ensures ts[id].clock > now
    {
      assert HomeAt(w, seen, s, ts, id);
    }
  }
}
