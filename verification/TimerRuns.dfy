/**
  What holds of every run of the timer queue: order, conservation, punctuality, and what
  one tick does to the timers that are due.
 */
module TimerRuns {
  import opened Words
  import opened TimerQueue

  datatype Event =
    | OnStart(id: Id, ticks: U32)
    | OnCancel(id: Id)
    | OnTick(scripts: seq<Script>)
    | OnSleep(n: nat)

  function Step(s: State, ev: Event): (r: State) {
    match ev
    case OnStart(id, ticks) => StartTimer(s, id, ticks)
    case OnCancel(id) => CancelTimer(s, id)
    case OnTick(scripts) => Tick(s, scripts)
    case OnSleep(n) => Sleep(s, n)
  }

  /** The only thing asked of a run: sleeps keep to what was granted. */
  predicate Legal(s: State, ev: Event) {
    ev.OnSleep? ==> SleepAllowed(s, ev.n)
  }

  function Run(s: State, evs: seq<Event>): (r: State)
    decreases |evs|
  {
    if evs == [] then s else Run(Step(s, evs[0]), evs[1..])
  }

  predicate LegalRun(s: State, evs: seq<Event>)
    decreases |evs|
  {
    evs == [] || (Legal(s, evs[0]) && LegalRun(Step(s, evs[0]), evs[1..]))
  }

  // ----- insertion and removal, by position -----

  lemma {:induction false} OrderedAt(q: seq<Entry>, i: nat, j: nat)
    requires Ordered(q) && i < j < |q|
    ensures Before(q[i], q[j]) && q[i].id != q[j].id
  {
    assert q[j] == q[1..][j - 1] && q[j] in q[1..];
    if i > 0 {
      OrderedAt(q[1..], i - 1, j - 1);
    }
  }

  lemma {:induction false} InsertAt(q: seq<Entry>, e: Entry, p: nat)
    requires p <= |q|
    requires forall i :: 0 <= i < p ==> q[i].due <= e.due
    requires p < |q| ==> e.due < q[p].due
    ensures Insert(q, e) == q[..p] + [e] + q[p..]
  {
    if p == 0 {
      assert q[..0] + [e] + q[0..] == [e] + q;
    } else {
      InsertAt(q[1..], e, p - 1);
      assert q[..p] + [e] + q[p..] == [q[0]] + (q[1..][..p - 1] + [e] + q[1..][p - 1..]);
    }
  }

  lemma {:induction false} RemoveAt(q: seq<Entry>, p: nat)
    requires p < |q| && forall i :: 0 <= i < p ==> q[i].id != q[p].id
    ensures Active(q, q[p].id) && Pending(q, q[p].id) == q[p]
    ensures Remove(q, q[p].id) == q[..p] + q[p + 1..]
  {
    if p == 0 {
      assert q[..0] + q[1..] == q[1..];
    } else {
      RemoveAt(q[1..], p - 1);
      assert q[p] == q[1..][p - 1];
      assert q[..p] + q[p + 1..] == [q[0]] + (q[1..][..p - 1] + q[1..][p..]);
    }
  }

  // ----- the invariant -----

  function FateEntries(fates: seq<Fate>): (r: seq<Entry>)
    ensures |r| == |fates| && forall i :: 0 <= i < |r| ==> r[i] == fates[i].entry
  {
    seq(|fates|, i requires 0 <= i < |fates| => fates[i].entry)
  }

  /** Every start is numbered by its place in the history. */
  predicate Numbered(started: seq<Entry>) {
    forall k :: 0 <= k < |started| ==> started[k].ord == k
  }

  /** Every start is accounted for exactly once: still pending, run, or cancelled. */
  predicate Conserved(s: State) {
    multiset(s.started) == multiset(s.queue) + multiset(FateEntries(s.fates))
  }

  /** A timer runs on its deadline, or on the tick after it when a sleep ended on the deadline. */
  predicate OnTime(f: Fate, wakes: seq<nat>) {
    f.Ran? ==> f.at == f.entry.due || (f.at == f.entry.due + 1 && f.entry.due in wakes)
  }

  /** No pending timer has missed the tick it must run on; what holds while a tick is handled. */
  predicate Punctual(s: State) {
    && (forall f :: f in s.fates ==> OnTime(f, s.wakes))
    && (forall e :: e in s.queue ==> s.now <= e.due || (s.now == e.due + 1 && e.due in s.wakes))
  }

  /** What holds between ticks: a deadline that has been reached was reached by a sleep ending on it. */
  predicate Settled(s: State) {
    forall e :: e in s.queue ==> s.now < e.due || (s.now == e.due && e.due in s.wakes)
  }

  predicate Inv(s: State) {
    Ordered(s.queue) && Numbered(s.started) && Conserved(s) && Punctual(s)
  }

  lemma {:induction false} QueueStarted(s: State, e: Entry)
    requires Numbered(s.started) && Conserved(s)
    requires e in s.queue || e in FateEntries(s.fates)
    ensures e.ord < |s.started| && s.started[e.ord] == e
  {
    assert e in multiset(s.started);
    assert e in s.started;
  }

  lemma {:induction false} NumberedOnce(started: seq<Entry>, e: Entry)
    requires Numbered(started)
    ensures multiset(started)[e] <= 1
  {
    if started != [] {
      var n := |started| - 1;
      assert started == started[..n] + [started[n]];
      NumberedOnce(started[..n], e);
      if e == started[n] {
        assert e !in started[..n];
        assert multiset(started[..n])[e] == 0;
      }
    }
  }

  // ----- each operation keeps it -----

  /** What happened between two points of the handling of one tick (or between two calls). */
  predicate Grew(s: State, r: State) {
    && r.now == s.now && r.wakes == s.wakes
    && s.started <= r.started && s.fates <= r.fates
    && (forall k :: |s.started| <= k < |r.started| ==> r.started[k].due > s.now)
    && (forall k :: |s.fates| <= k < |r.fates| ==> r.fates[k].at == s.now)
    && (forall e :: e in r.queue && e.due <= s.now ==> e in s.queue)
  }

  lemma {:induction false} InsertMembers(q: seq<Entry>, e: Entry)
    ensures multiset(Insert(q, e)) == multiset(q) + multiset{e}
    ensures forall x :: x in Insert(q, e) <==> x == e || x in q
  {
    if q != [] && q[0].due <= e.due {
      InsertMembers(q[1..], e);
      assert q == [q[0]] + q[1..];
    }
    assert forall x :: x in Insert(q, e) <==> x in multiset(Insert(q, e));
    assert forall x :: x in q <==> x in multiset(q);
  }

  lemma {:induction false} InsertOrdered(q: seq<Entry>, e: Entry)
    requires Ordered(q)
    requires forall x :: x in q ==> x.id != e.id && x.ord < e.ord
    ensures Ordered(Insert(q, e))
  {
    if q == [] {
    } else if e.due < q[0].due {
      forall x | x in q ensures Before(e, x) {
        if x != q[0] { assert x in q[1..]; }
      }
      assert ([e] + q)[1..] == q;
    } else {
      InsertOrdered(q[1..], e);
      InsertMembers(q[1..], e);
      assert q[0] in q;
      assert ([q[0]] + Insert(q[1..], e))[1..] == Insert(q[1..], e);
    }
  }

  lemma {:induction false} RemoveMembers(q: seq<Entry>, id: Id)
    requires Active(q, id)
    ensures multiset(q) == multiset(Remove(q, id)) + multiset{Pending(q, id)}
    ensures forall x :: x in Remove(q, id) ==> x in q
  {
    assert q == [q[0]] + q[1..];
    if q[0].id != id {
      RemoveMembers(q[1..], id);
    }
    assert forall x :: x in Remove(q, id) <==> x in multiset(Remove(q, id));
    assert forall x :: x in q <==> x in multiset(q);
  }

  lemma {:induction false} RemoveOrdered(q: seq<Entry>, id: Id)
    requires Ordered(q) && Active(q, id)
    ensures Ordered(Remove(q, id)) && !Active(Remove(q, id), id)
  {
    if q[0].id != id {
      RemoveOrdered(q[1..], id);
      RemoveMembers(q[1..], id);
      assert ([q[0]] + Remove(q[1..], id))[1..] == Remove(q[1..], id);
    } else {
      assert forall x :: x in q[1..] ==> x.id != id;
    }
  }

  /** The part of the invariant that the order of the queue rests on. */
  predicate QueueOk(s: State) {
    Ordered(s.queue) && forall e :: e in s.queue ==> e.ord < |s.started|
  }

  lemma {:induction false} StartQueueOk(s: State, id: Id, ticks: U32)
    requires QueueOk(s)
    ensures QueueOk(StartTimer(s, id, ticks))
  {
    if !s.halted && !Active(s.queue, id) {
      var e := Entry(id, s.now + DelayOf(ticks), |s.started|);
      InsertOrdered(s.queue, e);
      InsertMembers(s.queue, e);
    }
  }

  lemma {:induction false} InvQueueOk(s: State)
    requires Ordered(s.queue) && Numbered(s.started) && Conserved(s)
    ensures QueueOk(s)
  {
    forall e | e in s.queue ensures e.ord < |s.started| {
      QueueStarted(s, e);
    }
  }

  lemma {:induction false} NumberedMore(started: seq<Entry>, e: Entry)
    requires Numbered(started) && e.ord == |started|
    ensures Numbered(started + [e])
  {
  }

  /** One more start, accounted for by one more pending entry. */
  lemma {:induction false} BalanceMore(started: seq<Entry>, queue: seq<Entry>, queue': seq<Entry>, ended: seq<Entry>, e: Entry)
    requires multiset(started) == multiset(queue) + multiset(ended)
    requires multiset(queue') == multiset(queue) + multiset{e}
    ensures multiset(started + [e]) == multiset(queue') + multiset(ended)
  {
    assert multiset(started + [e]) == multiset(started) + multiset{e};
  }

  lemma {:induction false} StartConserves(s: State, id: Id, ticks: U32)
    requires Numbered(s.started) && Conserved(s)
    ensures Numbered(StartTimer(s, id, ticks).started) && Conserved(StartTimer(s, id, ticks))
  {
    if !s.halted && !Active(s.queue, id) {
      var e := Entry(id, s.now + DelayOf(ticks), |s.started|);
      var r := StartTimer(s, id, ticks);
      assert r.queue == Insert(s.queue, e) && r.started == s.started + [e] && r.fates == s.fates;
      InsertMembers(s.queue, e);
      NumberedMore(s.started, e);
      BalanceMore(s.started, s.queue, r.queue, FateEntries(s.fates), e);
    }
  }

  lemma {:induction false} StartPunctual(s: State, id: Id, ticks: U32)
    requires Punctual(s)
    ensures Punctual(StartTimer(s, id, ticks)) && Grew(s, StartTimer(s, id, ticks))
  {
    InsertMembers(s.queue, Entry(id, s.now + DelayOf(ticks), |s.started|));
  }

  lemma {:induction false} StartKeeps(s: State, id: Id, ticks: U32)
    requires Inv(s)
    ensures Inv(StartTimer(s, id, ticks)) && Grew(s, StartTimer(s, id, ticks))
  {
    InvQueueOk(s);
    StartQueueOk(s, id, ticks);
    StartConserves(s, id, ticks);
    StartPunctual(s, id, ticks);
  }

  lemma {:induction false} CancelConserves(s: State, id: Id)
    requires Conserved(s) && Active(s.queue, id) && !s.halted
    ensures Conserved(CancelTimer(s, id))
  {
    RemoveMembers(s.queue, id);
    var f := Cancelled(Pending(s.queue, id), s.now);
    assert FateEntries(s.fates + [f]) == FateEntries(s.fates) + [f.entry];
  }

  lemma {:induction false} CancelKeeps(s: State, id: Id)
    requires Inv(s)
    ensures Inv(CancelTimer(s, id)) && Grew(s, CancelTimer(s, id))
  {
    if !s.halted && Active(s.queue, id) {
      CancelConserves(s, id);
      RemoveOrdered(s.queue, id);
      RemoveMembers(s.queue, id);
    }
  }

  lemma {:induction false} PopKeeps(s: State)
    requires Inv(s) && HeadDue(s)
    ensures Inv(PopHead(s)) && Grew(s, PopHead(s))
  {
    var r := PopHead(s);
    assert s.queue == [s.queue[0]] + s.queue[1..];
    assert FateEntries(r.fates) == FateEntries(s.fates) + [s.queue[0]];
    assert s.queue[0] in s.queue;
  }

  lemma {:induction false} GrewTransitive(a: State, b: State, c: State)
    requires Grew(a, b) && Grew(b, c)
    ensures Grew(a, c)
  {
  }

  lemma {:induction false} DoOpsKeeps(s: State, ops: seq<Op>)
    requires Inv(s)
    ensures Inv(DoOps(s, ops)) && Grew(s, DoOps(s, ops))
    ensures NewFatesCancelled(s, DoOps(s, ops))
    decreases |ops|
  {
    if ops != [] {
      match ops[0] {
        case Start(id, ticks) => StartKeeps(s, id, ticks);
        case Cancel(id) => CancelKeeps(s, id);
      }
      var m := DoOp(s, ops[0]);
      assert NewFatesCancelled(s, m);
      DoOpsKeeps(m, ops[1..]);
      GrewTransitive(s, m, DoOps(s, ops));
    }
  }

  predicate NewFatesCancelled(s: State, r: State) {
    s.fates <= r.fates && forall k :: |s.fates| <= k < |r.fates| ==> r.fates[k].Cancelled?
  }

  lemma {:induction false} OpsThenRestartKeeps(s: State, ops: seq<Op>, id: Id, restart: Option<U32>)
    requires Inv(s)
    ensures var r := Restart(DoOps(s, ops), id, restart); Inv(r) && Grew(s, r) && NewFatesCancelled(s, r)
  {
    DoOpsKeeps(s, ops);
    if restart.Some? {
      var m := DoOps(s, ops);
      StartKeeps(m, id, Sub32(restart.value, 1));
      GrewTransitive(s, m, Restart(m, id, restart));
    }
  }

  /** Running the first timer adds one run of it, then only cancels. */
  lemma {:induction false} RunHeadKeeps(s: State, script: Script)
    requires Inv(s) && HeadDue(s)
    ensures Inv(RunHead(s, script)) && Grew(s, RunHead(s, script))
    ensures Grew(PopHead(s), RunHead(s, script))
    ensures NewFatesCancelled(PopHead(s), RunHead(s, script))
  {
    PopKeeps(s);
    OpsThenRestartKeeps(PopHead(s), script.ops, s.queue[0].id, script.restart);
    GrewTransitive(s, PopHead(s), RunHead(s, script));
  }

  /** Every run in the new part of the history is of a timer that was already due, in queue order. */
  predicate RunsInOrder(s: State, r: State) {
    && s.fates <= r.fates
    && (forall k :: |s.fates| <= k < |r.fates| && r.fates[k].Ran? ==>
          r.fates[k].entry in s.queue && r.fates[k].entry.due <= s.now)
    && (forall j, k :: |s.fates| <= j < k < |r.fates| && r.fates[j].Ran? && r.fates[k].Ran? ==>
          Before(r.fates[j].entry, r.fates[k].entry))
  }

  lemma {:induction false} DrainKeeps(s: State, scripts: seq<Script>)
    requires Inv(s)
    ensures Inv(Drain(s, scripts)) && Grew(s, Drain(s, scripts))
    ensures RunsInOrder(s, Drain(s, scripts))
    ensures !HeadDue(Drain(s, scripts))
    decreases DueCount(s.queue, s.now)
  {
    if HeadDue(s) {
      RunHeadProgress(s, NextScript(scripts));
      RunHeadKeeps(s, NextScript(scripts));
      var m := RunHead(s, NextScript(scripts));
      var r := Drain(m, RestOf(scripts));
      DrainKeeps(m, RestOf(scripts));
      GrewTransitive(s, m, r);
      DrainOrder(s, m, r);
    }
  }

  lemma {:induction false} DrainOrder(s: State, m: State, r: State)
    requires HeadDue(s) && s.now == m.now
    requires AllAfter(s.queue[0], s.queue[1..])
    requires Grew(PopHead(s), m)
    requires NewFatesCancelled(PopHead(s), m) && RunsInOrder(m, r)
    ensures RunsInOrder(s, r)
  {
    var h := |s.fates|;
    assert m.fates[h] == PopHead(s).fates[h] == Ran(s.queue[0], s.now);
    assert r.fates[h] == m.fates[h];
    forall k | h < k < |r.fates| && r.fates[k].Ran?
      ensures r.fates[k].entry in s.queue[1..] && r.fates[k].entry.due <= s.now && |m.fates| <= k
    {
    }
    forall j, k | h <= j < k < |r.fates| && r.fates[j].Ran? && r.fates[k].Ran?
      ensures Before(r.fates[j].entry, r.fates[k].entry)
    {
    }
  }

  lemma {:induction false} OrderedDue(s: State)
    requires Ordered(s.queue) && !s.halted && !HeadDue(s)
    ensures forall e :: e in s.queue ==> s.now < e.due
  {
    forall e | e in s.queue ensures s.now < e.due {
      var i :| 0 <= i < |s.queue| && s.queue[i] == e;
      if i > 0 { OrderedAt(s.queue, 0, i); }
    }
  }

  lemma {:induction false} StartSettled(s: State, id: Id, ticks: U32)
    requires Settled(s)
    ensures Settled(StartTimer(s, id, ticks))
  {
    InsertMembers(s.queue, Entry(id, s.now + DelayOf(ticks), |s.started|));
  }

  lemma {:induction false} CancelSettled(s: State, id: Id)
    requires Settled(s)
    ensures Settled(CancelTimer(s, id))
  {
    if Active(s.queue, id) {
      RemoveMembers(s.queue, id);
    }
  }

  lemma {:induction false} NextTickInv(s: State)
    requires Inv(s) && Settled(s)
    ensures Inv(s.(now := s.now + 1))
  {
  }

  lemma {:induction false} DrainSettles(s: State, scripts: seq<Script>)
    requires Inv(s)
    ensures Inv(Drain(s, scripts))
    ensures Drain(s, scripts).halted || Settled(Drain(s, scripts))
  {
    DrainKeeps(s, scripts);
    var r := Drain(s, scripts);
    if !r.halted { OrderedDue(r); }
  }

  lemma {:induction false} TickKeeps(s: State, scripts: seq<Script>)
    requires Inv(s) && Settled(s) && !s.halted
    ensures Inv(Tick(s, scripts)) && (Tick(s, scripts).halted || Settled(Tick(s, scripts)))
  {
    NextTickInv(s);
    DrainSettles(s.(now := s.now + 1), scripts);
  }

  lemma {:induction false} StepKeeps(s: State, ev: Event)
    requires Inv(s) && Legal(s, ev)
    requires s.halted || Settled(s)
    ensures Inv(Step(s, ev)) && (Step(s, ev).halted || Settled(Step(s, ev)))
  {
    if !s.halted {
      match ev
      case OnStart(id, ticks) => StartKeeps(s, id, ticks); StartSettled(s, id, ticks);
      case OnCancel(id) => CancelKeeps(s, id); CancelSettled(s, id);
      case OnTick(scripts) => TickKeeps(s, scripts);
      case OnSleep(n) => SleepKeeps(s, n);
    }
  }

  lemma {:induction false} SleepKeeps(s: State, n: nat)
    requires Inv(s) && Settled(s) && SleepAllowed(s, n)
    ensures Inv(Sleep(s, n)) && Settled(Sleep(s, n))
  {
    var r := Sleep(s, n);
    forall e | e in s.queue ensures r.now <= e.due {
      var i :| 0 <= i < |s.queue| && s.queue[i] == e;
      if i > 0 { OrderedAt(s.queue, 0, i); }
    }
    assert r.wakes[|s.wakes|] == r.now;
    assert forall t :: t in s.wakes ==> t in r.wakes;
  }

  lemma {:induction false} RunKeeps(s: State, evs: seq<Event>)
    requires Inv(s) && (s.halted || Settled(s)) && LegalRun(s, evs)
    ensures Inv(Run(s, evs)) && (Run(s, evs).halted || Settled(Run(s, evs)))
    decreases |evs|
  {
    if evs != [] {
      StepKeeps(s, evs[0]);
      RunKeeps(Step(s, evs[0]), evs[1..]);
    }
  }

  lemma {:induction false} BootInv()
    ensures Inv(Boot) && Settled(Boot)
  {
    assert FateEntries(Boot.fates) == [];
  }

  // ----- the theorems -----

  lemma {:induction false} OrderedFirst(p: seq<Entry>, x: Entry)
    requires Ordered(p) && x in p
    ensures x == p[0] || Before(p[0], x)
  {
    assert p == [p[0]] + p[1..];
  }

  lemma {:induction false} SameFirst(p: seq<Entry>, q: seq<Entry>)
    requires Ordered(p) && Ordered(q) && multiset(p) == multiset(q) && p != []
    ensures q != [] && p[0] == q[0]
  {
    assert p[0] in multiset(q);
    assert p[0] in q;
    assert q[0] in multiset(p);
    OrderedFirst(p, q[0]);
    OrderedFirst(q, p[0]);
  }

  lemma {:induction false} SameRest(p: seq<Entry>, q: seq<Entry>)
    requires p != [] && q != [] && p[0] == q[0] && multiset(p) == multiset(q)
    ensures multiset(p[1..]) == multiset(q[1..])
  {
    assert p == [p[0]] + p[1..] && q == [q[0]] + q[1..];
    assert multiset(p[1..]) == multiset(p) - multiset{p[0]};
    assert multiset(q[1..]) == multiset(q) - multiset{q[0]};
  }

  lemma {:induction false} OrderedUnique(p: seq<Entry>, q: seq<Entry>)
    requires Ordered(p) && Ordered(q) && multiset(p) == multiset(q)
    ensures p == q
  {
    if p == [] {
      assert |multiset(q)| == |q|;
    } else {
      SameFirst(p, q);
      SameRest(p, q);
      OrderedUnique(p[1..], q[1..]);
      assert p == [p[0]] + p[1..] && q == [q[0]] + q[1..];
    }
  }

  /** In every run the queue is the one arrangement of the starts that have neither run nor been
      cancelled in order of absolute deadline, ties in start order, each timer at most once. */
  lemma {:induction false} QueueIsPendingInOrder(evs: seq<Event>, q: seq<Entry>)
    requires LegalRun(Boot, evs)
    requires var r := Run(Boot, evs);
             Ordered(q) && multiset(q) == multiset(r.started) - multiset(FateEntries(r.fates))
    ensures Run(Boot, evs).queue == q
  {
    BootInv();
    RunKeeps(Boot, evs);
    var r := Run(Boot, evs);
    assert multiset(r.queue) == multiset(r.started) - multiset(FateEntries(r.fates));
    OrderedUnique(r.queue, q);
  }

  /** Punctuality: no timer function runs early, none runs later than the tick after its deadline,
      and that late only if a sleep ended on the deadline. */
  lemma {:induction false} NeverEarlyNeverMissed(evs: seq<Event>)
    requires LegalRun(Boot, evs)
    ensures forall f :: f in Run(Boot, evs).fates ==> OnTime(f, Run(Boot, evs).wakes)
  {
    BootInv();
    RunKeeps(Boot, evs);
  }

  /** Once its deadline has passed, a start has exactly one fate: it was cancelled, or it ran on time. */
  lemma {:induction false} PastStartsAreSettled(evs: seq<Event>, k: nat) returns (j: nat)
    requires LegalRun(Boot, evs) && !Run(Boot, evs).halted
    requires k < |Run(Boot, evs).started| && Run(Boot, evs).started[k].due < Run(Boot, evs).now
    ensures var r := Run(Boot, evs);
            && j < |r.fates| && r.fates[j].entry == r.started[k] && OnTime(r.fates[j], r.wakes)
            && multiset(FateEntries(r.fates))[r.started[k]] == 1
            && r.started[k] !in r.queue
  {
    BootInv();
    RunKeeps(Boot, evs);
    var r := Run(Boot, evs);
    var e := r.started[k];
    assert e !in r.queue;
    NumberedOnce(r.started, e);
    assert e in r.started;
    assert e in multiset(FateEntries(r.fates));
    assert e in FateEntries(r.fates);
    j :| 0 <= j < |r.fates| && FateEntries(r.fates)[j] == e;
    assert r.fates[j] in r.fates;
  }

  lemma {:induction false} FatesSplit(early: seq<Fate>, fates: seq<Fate>)
    requires early <= fates
    ensures multiset(FateEntries(fates)) == multiset(FateEntries(early)) + multiset(FateEntries(fates[|early|..]))
  {
    assert FateEntries(fates) == FateEntries(early) + FateEntries(fates[|early|..]);
  }

  /** A pending entry is accounted for once: in the queue, and not among the fates. */
  lemma {:induction false} PendingOnce(s: State, e: Entry)
    requires Numbered(s.started) && Conserved(s) && e in s.queue
    ensures e in s.started && multiset(FateEntries(s.fates))[e] == 0
  {
    assert e in multiset(s.queue);
    QueueStarted(s, e);
    NumberedOnce(s.started, e);
  }

  /** An entry that was started and is not pending has one fate. */
  lemma {:induction false} EndedOnce(s: State, e: Entry)
    requires Numbered(s.started) && Conserved(s) && e in s.started && e !in s.queue
    ensures multiset(FateEntries(s.fates))[e] == 1
  {
    assert e in multiset(s.started);
    NumberedOnce(s.started, e);
  }

  lemma {:induction false} OneRecentFate(s: State, r: State, e: Entry)
    requires Numbered(s.started) && Conserved(s) && Numbered(r.started) && Conserved(r)
    requires s.started <= r.started && s.fates <= r.fates
    requires e in s.queue && e !in r.queue
    ensures multiset(FateEntries(r.fates[|s.fates|..]))[e] == 1
  {
    PendingOnce(s, e);
    EndedOnce(r, e);
    FatesSplit(s.fates, r.fates);
  }

  /** One tick, whatever the timer functions do: every timer due on entry meets exactly one fate in
      this tick (it runs, or an earlier function cancels it); only such timers run, so nothing started
      or restarted during the tick does; runs happen at the new time and in queue order; and afterwards
      nothing due is left. */
  lemma {:induction false} TickRunsExactlyTheDue(s: State, scripts: seq<Script>)
    requires Inv(s) && Settled(s) && !s.halted
    requires !Tick(s, scripts).halted
    ensures var r := Tick(s, scripts);
            && s.fates <= r.fates && r.now == s.now + 1
            && (forall e :: e in s.queue && e.due <= r.now ==>
                  multiset(FateEntries(r.fates[|s.fates|..]))[e] == 1)
            && (forall k :: |s.fates| <= k < |r.fates| ==> r.fates[k].at == r.now)
            && RunsInOrder(s.(now := r.now), r)
            && (forall e :: e in r.queue ==> r.now < e.due)
  {
    var s1 := s.(now := s.now + 1);
    var r := Tick(s, scripts);
    DrainKeeps(s1, scripts);
    OrderedDue(r);
    forall e | e in s.queue && e.due <= r.now
      ensures multiset(FateEntries(r.fates[|s.fates|..]))[e] == 1
    {
      OneRecentFate(s, r, e);
    }
  }

  // ----- starts = runs + cancels + active, timer by timer -----

  function CountId(es: seq<Entry>, id: Id): (n: nat) {
    if es == [] then 0 else (if es[0].id == id then 1 else 0) + CountId(es[1..], id)
  }

  function CountRuns(fates: seq<Fate>, id: Id): (n: nat) {
    if fates == [] then 0
    else (if fates[0].Ran? && fates[0].entry.id == id then 1 else 0) + CountRuns(fates[1..], id)
  }

  function CountCancels(fates: seq<Fate>, id: Id): (n: nat) {
    if fates == [] then 0
    else (if fates[0].Cancelled? && fates[0].entry.id == id then 1 else 0) + CountCancels(fates[1..], id)
  }

  lemma {:induction false} CountConcat(a: seq<Entry>, b: seq<Entry>, id: Id)
    ensures CountId(a + b, id) == CountId(a, id) + CountId(b, id)
  {
    if a == [] {
      assert a + b == b;
    } else {
      CountConcat(a[1..], b, id);
      assert (a + b)[1..] == a[1..] + b;
    }
  }

  lemma {:induction false} WithoutOne(b: seq<Entry>, i: nat, id: Id)
    requires i < |b|
    ensures multiset(b[..i] + b[i + 1..]) == multiset(b) - multiset{b[i]}
    ensures CountId(b, id) == CountId(b[..i] + b[i + 1..], id) + if b[i].id == id then 1 else 0
  {
    assert b == b[..i] + ([b[i]] + b[i + 1..]);
    CountConcat(b[..i], b[i + 1..], id);
    CountConcat(b[..i], [b[i]] + b[i + 1..], id);
    assert ([b[i]] + b[i + 1..])[1..] == b[i + 1..];
  }

  lemma {:induction false} CountPermuted(a: seq<Entry>, b: seq<Entry>, id: Id)
    requires multiset(a) == multiset(b)
    ensures CountId(a, id) == CountId(b, id)
    decreases |a|
  {
    if a == [] {
      assert |b| == |multiset(b)|;
    } else {
      assert a[0] in multiset(b);
      assert a[0] in b;
      var i :| 0 <= i < |b| && b[i] == a[0];
      WithoutOne(a, 0, id);
      WithoutOne(b, i, id);
      CountPermuted(a[..0] + a[1..], b[..i] + b[i + 1..], id);
    }
  }

  lemma {:induction false} CountFates(fates: seq<Fate>, id: Id)
    ensures CountId(FateEntries(fates), id) == CountRuns(fates, id) + CountCancels(fates, id)
  {
    if fates != [] {
      CountFates(fates[1..], id);
      assert FateEntries(fates)[1..] == FateEntries(fates[1..]);
    }
  }

  lemma {:induction false} CountQueue(q: seq<Entry>, id: Id)
    requires Ordered(q)
    ensures CountId(q, id) == if Active(q, id) then 1 else 0
  {
    if q != [] {
      CountQueue(q[1..], id);
      if Active(q[1..], id) {
        var i :| 0 <= i < |q[1..]| && q[1..][i].id == id;
        assert q[1..][i] in q[1..];
        assert q[i + 1].id == id;
      } else if q[0].id != id {
        assert forall i :: 1 <= i < |q| ==> q[i] == q[1..][i - 1];
      }
    }
  }

  /** The law the stress test samples: for each timer, starts are its runs plus its successful
      cancels plus one if it is active now. */
  lemma {:induction false} StartsBalance(evs: seq<Event>, id: Id)
    requires LegalRun(Boot, evs)
    ensures var r := Run(Boot, evs);
            CountId(r.started, id) ==
            CountRuns(r.fates, id) + CountCancels(r.fates, id) + (if Active(r.queue, id) then 1 else 0)
  {
    BootInv();
    RunKeeps(Boot, evs);
    var r := Run(Boot, evs);
    CountPermuted(r.started, r.queue + FateEntries(r.fates), id);
    CountConcat(r.queue, FateEntries(r.fates), id);
    CountFates(r.fates, id);
    CountQueue(r.queue, id);
  }

  lemma {:induction false} RemoveInserted(q: seq<Entry>, e: Entry)
    requires !Active(q, e.id)
    ensures Active(Insert(q, e), e.id) && Remove(Insert(q, e), e.id) == q
  {
    if q == [] || e.due < q[0].due {
      assert ([e] + q)[0] == e && ([e] + q)[1..] == q;
    } else {
      assert forall x :: x in q[1..] ==> x in q;
      RemoveInserted(q[1..], e);
      InsertMembers(q, e);
      assert q[0] in q && ([q[0]] + Insert(q[1..], e))[1..] == Insert(q[1..], e);
    }
  }

  /** Starting a timer and cancelling it again leaves every other pending timer as it was. */
  lemma {:induction false} CancelUndoesStart(s: State, id: Id, ticks: U32)
    requires !s.halted && !Active(s.queue, id)
    ensures CancelTimer(StartTimer(s, id, ticks), id).queue == s.queue
  {
    RemoveInserted(s.queue, Entry(id, s.now + DelayOf(ticks), |s.started|));
  }
}
