/**
  What a start and a returned delay are worth in ticks: when the timer is due, and that it runs then, counted from the
  call and not from what the queue recorded.
 */
module TimerDelays {
  import opened Words
  import opened TimerQueue
  import opened TimerRuns

  predicate PendingAt(q: seq<Entry>, id: Id, due: nat) {
    exists e :: e in q && e.id == id && e.due == due
  }

  // ----- one call -----

  /** A start of an inactive timer makes it due after that many ticks, at least one. */
  lemma {:induction false} StartDue(s: State, id: Id, ticks: U32)
    requires !s.halted && !Active(s.queue, id)
    ensures var r, e := StartTimer(s, id, ticks), Entry(id, s.now + (if ticks == 0 then 1 else ticks), |s.started|);
      !r.halted && e in r.queue && r.started == s.started + [e] && r.now == s.now
  {
    InsertMembers(s.queue, Entry(id, s.now + (if ticks == 0 then 1 else ticks), |s.started|));
  }

  /** Starting an active timer trips the assert, and nothing else does. */
  lemma {:induction false} StartHaltsExactly(s: State, id: Id, ticks: U32)
    ensures StartTimer(s, id, ticks).halted <==> s.halted || Active(s.queue, id)
  {
  }

  /** After a cancel the timer is not pending, and if it was, the cancel is on record. */
  lemma {:induction false} CancelEnds(s: State, id: Id)
    requires Ordered(s.queue) && !s.halted
    ensures var r := CancelTimer(s, id);
      && !r.halted && !Active(r.queue, id)
      && (Active(s.queue, id) ==> |r.fates| == |s.fates| + 1 && r.fates[|s.fates|].Cancelled? && r.fates[|s.fates|].entry.id == id)
  {
    if Active(s.queue, id) {
      RemoveOrdered(s.queue, id);
    }
  }

  /** What a returned delay of c ticks is worth: one tick less than a start, because it counts from the tick itself; a
      delay that was converted to 0 ticks wraps. */
  lemma {:induction false} RestartDue(s: State, id: Id, c: U32)
    requires !Restart(s, id, Some(c)).halted
    ensures Entry(id, s.now + (if c == 0 then 0xFFFF_FFFF else if c == 1 then 1 else c - 1), |s.started|) in Restart(s, id, Some(c)).queue
  {
    StartHaltsExactly(s, id, Sub32(c, 1));
    StartDue(s, id, Sub32(c, 1));
  }

  /** A timer function that returns a delay leaves its timer pending again, that long after this tick. */
  lemma {:induction false} FunctionRestarts(s: State, script: Script)
    requires HeadDue(s) && script.restart.Some? && !RunHead(s, script).halted
    ensures var c := script.restart.value;
      PendingAt(RunHead(s, script).queue, s.queue[0].id, s.now + (if c == 0 then 0xFFFF_FFFF else if c == 1 then 1 else c - 1))
  {
    DoOpsProgress(PopHead(s), script.ops);
    RestartDue(DoOps(PopHead(s), script.ops), s.queue[0].id, script.restart.value);
  }

  /** A timer function may start its own timer, since that is off the list when the function runs; it must then return 0. */
  lemma {:induction false} OwnStart(s: State, ticks: U32, restart: Option<U32>)
    requires Ordered(s.queue) && HeadDue(s)
    ensures RunHead(s, Script([Start(s.queue[0].id, ticks)], restart)).halted <==> restart.Some?
  {
    var p, id := PopHead(s), s.queue[0].id;
    assert !Active(p.queue, id);
    StartDue(p, id, ticks);
    var m := StartTimer(p, id, ticks);
    var ops := [Start(id, ticks)];
    assert DoOps(p, ops) == DoOps(DoOp(p, ops[0]), []);
    assert Active(m.queue, id);
  }

  // ----- what is not cancelled stays -----

  predicate OpsSpareCancel(ops: seq<Op>, id: Id) {
    forall k :: 0 <= k < |ops| ==> !(ops[k].Cancel? && ops[k].id == id)
  }

  predicate ScriptsSpareCancel(scripts: seq<Script>, id: Id) {
    forall k :: 0 <= k < |scripts| ==> OpsSpareCancel(scripts[k].ops, id)
  }

  /** The event, and every timer function in it, leaves the timer uncancelled. */
  predicate SparesCancel(ev: Event, id: Id) {
    match ev
    case OnStart(_, _) => true
    case OnCancel(x) => x != id
    case OnTick(scripts) => ScriptsSpareCancel(scripts, id)
    case OnSleep(_) => true
  }

  predicate AllSpareCancel(evs: seq<Event>, id: Id) {
    forall k :: 0 <= k < |evs| ==> SparesCancel(evs[k], id)
  }

  predicate SparedAt(fates: seq<Fate>, k: nat, id: Id)
    requires k < |fates|
  {
    fates[k].Cancelled? ==> fates[k].entry.id != id
  }

  /** No cancel of the timer happened between s and r. */
  predicate Spared(s: State, r: State, id: Id) {
    && s.started <= r.started && s.fates <= r.fates
    && forall k :: |s.fates| <= k < |r.fates| ==> SparedAt(r.fates, k, id)
  }

  lemma {:induction false} SparedTwice(s: State, m: State, r: State, id: Id)
    requires Spared(s, m, id) && Spared(m, r, id)
    ensures Spared(s, r, id)
  {
    forall k | |s.fates| <= k < |r.fates| ensures SparedAt(r.fates, k, id) {
      if k < |m.fates| {
        assert SparedAt(m.fates, k, id);
      }
    }
  }

  lemma {:induction false} OpsSpared(s: State, ops: seq<Op>, id: Id)
    requires OpsSpareCancel(ops, id)
    ensures Spared(s, DoOps(s, ops), id)
    decreases |ops|
  {
    if ops != [] {
      var m := DoOp(s, ops[0]);
      assert Spared(s, m, id);
      OpsSpared(m, ops[1..], id);
      SparedTwice(s, m, DoOps(s, ops), id);
    }
  }

  lemma {:induction false} RestartSpared(s: State, x: Id, restart: Option<U32>, id: Id)
    ensures Spared(s, Restart(s, x, restart), id)
  {
  }

  lemma {:induction false} RunHeadSpared(s: State, script: Script, id: Id)
    requires HeadDue(s) && OpsSpareCancel(script.ops, id)
    ensures Spared(s, RunHead(s, script), id)
  {
    var p := PopHead(s);
    var m := DoOps(p, script.ops);
    assert Spared(s, p, id);
    OpsSpared(p, script.ops, id);
    RestartSpared(m, s.queue[0].id, script.restart, id);
    SparedTwice(s, p, m, id);
    SparedTwice(s, m, RunHead(s, script), id);
  }

  lemma {:induction false} DrainSpared(s: State, scripts: seq<Script>, id: Id)
    requires ScriptsSpareCancel(scripts, id)
    ensures Spared(s, Drain(s, scripts), id)
    decreases DueCount(s.queue, s.now)
  {
    if HeadDue(s) {
      var script := NextScript(scripts);
      RunHeadProgress(s, script);
      RunHeadSpared(s, script, id);
      DrainSpared(RunHead(s, script), RestOf(scripts), id);
      SparedTwice(s, RunHead(s, script), Drain(s, scripts), id);
    }
  }

  lemma {:induction false} StepSpared(s: State, ev: Event, id: Id)
    requires SparesCancel(ev, id)
    ensures Spared(s, Step(s, ev), id)
  {
    match ev {
      case OnTick(scripts) => DrainSpared(s.(now := s.now + 1), scripts, id);
      case _ =>
    }
  }

  lemma {:induction false} RunSpared(s: State, evs: seq<Event>, id: Id)
    requires AllSpareCancel(evs, id)
    ensures Spared(s, Run(s, evs), id)
    decreases |evs|
  {
    if evs != [] {
      var m := Step(s, evs[0]);
      assert SparesCancel(evs[0], id);
      StepSpared(s, evs[0], id);
      forall k | 0 <= k < |evs| - 1 ensures SparesCancel(evs[1..][k], id) {
        assert SparesCancel(evs[k + 1], id);
      }
      RunSpared(m, evs[1..], id);
      SparedTwice(s, m, Run(s, evs), id);
    }
  }

  /** What of the invariant accounts for every start. */
  predicate Accounted(s: State) {
    Numbered(s.started) && Conserved(s)
  }

  /** A start that is neither pending nor cancelled has run. */
  lemma {:induction false} GoneHasRun(s: State, r: State, e: Entry) returns (j: nat)
    requires Accounted(s) && Accounted(r) && Spared(s, r, e.id)
    requires e in s.queue && e !in r.queue
    ensures |s.fates| <= j < |r.fates| && r.fates[j].Ran? && r.fates[j].entry == e
  {
    PendingOnce(s, e);
    EndedOnce(r, e);
    FatesSplit(s.fates, r.fates);
    var recent := FateEntries(r.fates[|s.fates|..]);
    assert e in multiset(recent);
    assert e in recent;
    var i :| 0 <= i < |recent| && recent[i] == e;
    j := |s.fates| + i;
    assert SparedAt(r.fates, j, e.id);
  }

  // ----- over runs -----

  /** The time after the events, each tick counting one and each sleep its length. */
  function Clock(now: nat, evs: seq<Event>): (r: nat)
    decreases |evs|
  {
    if evs == [] then now
    else Clock(match evs[0] case OnTick(_) => now + 1 case OnSleep(n) => now + n case _ => now, evs[1..])
  }

  /** The times at which the sleeps among the events end. */
  function SleepEnds(now: nat, evs: seq<Event>): (r: seq<nat>)
    decreases |evs|
  {
    if evs == [] then []
    else
      match evs[0]
      case OnTick(_) => SleepEnds(now + 1, evs[1..])
      case OnSleep(n) => [now + n] + SleepEnds(now + n, evs[1..])
      case _ => SleepEnds(now, evs[1..])
  }

  lemma {:induction false} HaltedRun(s: State, evs: seq<Event>)
    requires s.halted && LegalRun(s, evs)
    ensures Run(s, evs).halted
    decreases |evs|
  {
    if evs != [] {
      if evs[0].OnTick? {
        assert Step(s, evs[0]) == s;
      }
      HaltedRun(Step(s, evs[0]), evs[1..]);
    }
  }

  lemma {:induction false} StepClock(s: State, ev: Event)
    requires !s.halted
    ensures Step(s, ev).now == match ev case OnTick(_) => s.now + 1 case OnSleep(n) => s.now + n case _ => s.now
    ensures Step(s, ev).wakes == s.wakes + if ev.OnSleep? then [s.now + ev.n] else []
  {
    if ev.OnTick? {
      DrainClock(s.(now := s.now + 1), ev.scripts);
    }
  }

  lemma {:induction false} OpsClock(s: State, ops: seq<Op>)
    ensures DoOps(s, ops).wakes == s.wakes
    decreases |ops|
  {
    if ops != [] {
      OpsClock(DoOp(s, ops[0]), ops[1..]);
    }
  }

  lemma {:induction false} DrainClock(s: State, scripts: seq<Script>)
    ensures Drain(s, scripts).now == s.now && Drain(s, scripts).wakes == s.wakes
    decreases DueCount(s.queue, s.now)
  {
    if HeadDue(s) {
      var script := NextScript(scripts);
      RunHeadProgress(s, script);
      OpsClock(PopHead(s), script.ops);
      DrainClock(RunHead(s, script), RestOf(scripts));
    }
  }

  /** Absolute time is what the events say, and so are the times at which sleeps ended. */
  lemma {:induction false} RunClock(s: State, evs: seq<Event>)
    requires LegalRun(s, evs) && !Run(s, evs).halted
    ensures Run(s, evs).now == Clock(s.now, evs) && Run(s, evs).wakes == s.wakes + SleepEnds(s.now, evs)
    decreases |evs|
  {
    if s.halted {
      HaltedRun(s, evs);
    } else if evs != [] {
      StepClock(s, evs[0]);
      RunClock(Step(s, evs[0]), evs[1..]);
    }
  }

  /** A timer started with a delay and not cancelled runs exactly that many ticks later, or one tick later still if a
      sleep ended just then, whatever else goes on. */
  lemma {:induction false} StartRunsOnTime(s: State, id: Id, ticks: U32, evs: seq<Event>) returns (j: nat)
    requires Inv(s) && Settled(s) && !s.halted && !Active(s.queue, id)
    requires LegalRun(StartTimer(s, id, ticks), evs) && AllSpareCancel(evs, id)
    requires var r := Run(StartTimer(s, id, ticks), evs);
      !r.halted && s.now + (if ticks == 0 then 1 else ticks) < r.now
    ensures var r, due := Run(StartTimer(s, id, ticks), evs), s.now + (if ticks == 0 then 1 else ticks);
      && |s.fates| <= j < |r.fates| && r.fates[j].Ran? && r.fates[j].entry.id == id
      && (r.fates[j].at == due || (r.fates[j].at == due + 1 && due in r.wakes))
  {
    var s1 := StartTimer(s, id, ticks);
    var r := Run(s1, evs);
    var e := Entry(id, s.now + (if ticks == 0 then 1 else ticks), |s.started|);
    StartDue(s, id, ticks);
    StartKeeps(s, id, ticks);
    StartSettled(s, id, ticks);
    RunKeeps(s1, evs);
    RunSpared(s1, evs, id);
    assert e !in r.queue;
    j := GoneHasRun(s1, r, e);
    assert r.fates[j] in r.fates;
  }

  // ----- within a tick -----

  /** What is pending for later stays pending through the rest of the tick unless one of its functions cancels it. */
  lemma {:induction false} StaysThroughDrain(s: State, scripts: seq<Script>, e: Entry)
    requires Inv(s) && e in s.queue && s.now < e.due && ScriptsSpareCancel(scripts, e.id)
    ensures e in Drain(s, scripts).queue
  {
    var r := Drain(s, scripts);
    DrainKeeps(s, scripts);
    DrainSpared(s, scripts, e.id);
    if e !in r.queue {
      var j := GoneHasRun(s, r, e);
      assert false;
    }
  }

  /** The k-th timer function to run from s on finds the state m. */
  predicate Reaches(s: State, scripts: seq<Script>, k: nat, m: State)
    decreases k
  {
    if k == 0 then m == s
    else HeadDue(s) && scripts != [] && Reaches(RunHead(s, scripts[0]), scripts[1..], k - 1, m)
  }

  /** The rest of the tick from there is what the remaining functions make of it. */
  lemma {:induction false} DrainFrom(s: State, scripts: seq<Script>, k: nat, m: State)
    requires Reaches(s, scripts, k, m)
    ensures k <= |scripts| && m.now == s.now && Drain(s, scripts) == Drain(m, scripts[k..])
    decreases k
  {
    if k > 0 {
      DrainOnce(s, scripts);
      DrainFrom(RunHead(s, scripts[0]), scripts[1..], k - 1, m);
      assert scripts[1..][k - 1..] == scripts[k..];
    } else {
      assert scripts[0..] == scripts;
    }
  }

  lemma {:induction false} ReachesInv(s: State, scripts: seq<Script>, k: nat, m: State)
    requires Inv(s) && Reaches(s, scripts, k, m)
    ensures Inv(m)
    decreases k
  {
    if k > 0 {
      RunHeadKeeps(s, scripts[0]);
      ReachesInv(RunHead(s, scripts[0]), scripts[1..], k - 1, m);
    }
  }

  lemma {:induction false} DrainOnce(s: State, scripts: seq<Script>)
    requires HeadDue(s) && scripts != []
    ensures Drain(s, scripts) == Drain(RunHead(s, scripts[0]), scripts[1..])
    ensures RunHead(s, scripts[0]).now == s.now
  {
    RunHeadProgress(s, scripts[0]);
  }

  lemma {:induction false} HaltedStays(s: State, scripts: seq<Script>)
    requires s.halted
    ensures Drain(s, scripts).halted
  {
  }

  /** The k-th function of the tick, and what is left of the tick after it. */
  lemma {:induction false} TickFrom(s: State, scripts: seq<Script>, k: nat, m: State)
    requires !s.halted && k < |scripts| && Reaches(s.(now := s.now + 1), scripts, k, m) && HeadDue(m)
    ensures m.now == s.now + 1 && RunHead(m, scripts[k]).now == s.now + 1
    ensures Tick(s, scripts) == Drain(RunHead(m, scripts[k]), scripts[k + 1..])
  {
    DrainFrom(s.(now := s.now + 1), scripts, k, m);
    DrainOnce(m, scripts[k..]);
    assert scripts[k..][1..] == scripts[k + 1..];
  }

  lemma {:induction false} TickPointInv(s: State, scripts: seq<Script>, k: nat, m: State)
    requires Inv(s) && Settled(s) && Reaches(s.(now := s.now + 1), scripts, k, m)
    ensures Inv(m)
  {
    NextTickInv(s);
    ReachesInv(s.(now := s.now + 1), scripts, k, m);
  }

  /** What the k-th function of a tick leaves pending for later is pending after the tick, unless a later one cancels it. */
  lemma {:induction false} StaysThroughTick(s: State, scripts: seq<Script>, k: nat, m: State, e: Entry)
    requires Inv(s) && Settled(s) && !s.halted && k < |scripts|
    requires Reaches(s.(now := s.now + 1), scripts, k, m) && HeadDue(m)
    requires e in RunHead(m, scripts[k]).queue && s.now + 1 < e.due && ScriptsSpareCancel(scripts[k + 1..], e.id)
    ensures e in Tick(s, scripts).queue
  {
    TickFrom(s, scripts, k, m);
    TickPointInv(s, scripts, k, m);
    KeptInDrain(m, scripts[k], scripts[k + 1..], e);
  }

  lemma {:induction false} KeptInDrain(m: State, script: Script, later: seq<Script>, e: Entry)
    requires Inv(m) && HeadDue(m) && e in RunHead(m, script).queue && m.now < e.due
    requires RunHead(m, script).now == m.now && ScriptsSpareCancel(later, e.id)
    ensures e in Drain(RunHead(m, script), later).queue
  {
    RunHeadKeeps(m, script);
    StaysThroughDrain(RunHead(m, script), later, e);
  }

  lemma {:induction false} TickHalts(s: State, scripts: seq<Script>, k: nat, m: State)
    requires Inv(s) && Settled(s) && !s.halted && k < |scripts|
    requires Reaches(s.(now := s.now + 1), scripts, k, m) && HeadDue(m)
    ensures RunHead(m, scripts[k]).halted ==> Tick(s, scripts).halted
    ensures m.now == s.now + 1 && Inv(m)
  {
    TickFrom(s, scripts, k, m);
    TickPointInv(s, scripts, k, m);
    if RunHead(m, scripts[k]).halted {
      HaltedStays(RunHead(m, scripts[k]), scripts[k + 1..]);
    }
  }

  /** If the k-th timer function of a tick returns a delay, its timer is pending after the tick, that long after it,
      unless a later function of the tick cancelled it. */
  lemma {:induction false} TickRestarts(s: State, scripts: seq<Script>, k: nat, m: State)
    requires Inv(s) && Settled(s) && !s.halted && k < |scripts| && !Tick(s, scripts).halted
    requires Reaches(s.(now := s.now + 1), scripts, k, m) && HeadDue(m)
    requires scripts[k].restart.Some? && ScriptsSpareCancel(scripts[k + 1..], m.queue[0].id)
    ensures var c := scripts[k].restart.value;
      PendingAt(Tick(s, scripts).queue, m.queue[0].id, s.now + 1 + (if c == 0 then 0xFFFF_FFFF else if c == 1 then 1 else c - 1))
  {
    var id, c := m.queue[0].id, scripts[k].restart.value;
    var due := s.now + 1 + (if c == 0 then 0xFFFF_FFFF else if c == 1 then 1 else c - 1);
    TickHalts(s, scripts, k, m);
    FunctionRestarts(m, scripts[k]);
    var e :| e in RunHead(m, scripts[k]).queue && e.id == id && e.due == due;
    StaysThroughTick(s, scripts, k, m, e);
  }

  lemma {:induction false} DoOpsConcat(s: State, a: seq<Op>, b: seq<Op>)
    ensures DoOps(s, a + b) == DoOps(DoOps(s, a), b)
    decreases |a|
  {
    if a == [] {
      assert a + b == b;
    } else {
      assert (a + b)[0] == a[0] && (a + b)[1..] == a[1..] + b;
      DoOpsConcat(DoOp(s, a[0]), a[1..], b);
    }
  }

  lemma {:induction false} HaltedOps(s: State, ops: seq<Op>)
    requires s.halted
    ensures DoOps(s, ops).halted
    decreases |ops|
  {
    if ops != [] {
      HaltedOps(DoOp(s, ops[0]), ops[1..]);
    }
  }

  /** What is pending stays pending through calls that do not cancel it. */
  lemma {:induction false} StaysThroughOps(s: State, ops: seq<Op>, x: Id, restart: Option<U32>, e: Entry)
    requires Inv(s) && e in s.queue && OpsSpareCancel(ops, e.id)
    ensures e in Restart(DoOps(s, ops), x, restart).queue
  {
    var m := DoOps(s, ops);
    var r := Restart(m, x, restart);
    OpsSpared(s, ops, e.id);
    RestartSpared(m, x, restart, e.id);
    SparedTwice(s, m, r, e.id);
    OpsThenRestartKeeps(s, ops, x, restart);
    if e !in r.queue {
      var j := GoneHasRun(s, r, e);
      assert false;
    }
  }

  /** A start that a timer function makes as its i-th call leaves that timer pending for the given ticks when the
      function is through, unless a later call of it cancels the timer. */
  lemma {:induction false} FunctionStarts(s: State, script: Script, i: nat)
    requires Inv(s) && HeadDue(s) && i < |script.ops| && script.ops[i].Start? && !RunHead(s, script).halted
    requires OpsSpareCancel(script.ops[i + 1..], script.ops[i].id)
    ensures var op := script.ops[i];
      PendingAt(RunHead(s, script).queue, op.id, s.now + (if op.ticks == 0 then 1 else op.ticks))
  {
    var p, op, later := PopHead(s), script.ops[i], script.ops[i + 1..];
    var a := DoOps(p, script.ops[..i]);
    OpsSplit(p, script.ops, i);
    PopKeeps(s);
    DoOpsKeeps(p, script.ops[..i]);
    if DoOp(a, op).halted {
      HaltedOps(DoOp(a, op), later);
    }
    StartThenMore(a, op.id, op.ticks, later, s.queue[0].id, script.restart);
  }

  lemma {:induction false} OpsSplit(s: State, ops: seq<Op>, i: nat)
    requires i < |ops|
    ensures DoOps(s, ops) == DoOps(DoOp(DoOps(s, ops[..i]), ops[i]), ops[i + 1..])
  {
    var tail := [ops[i]] + ops[i + 1..];
    assert ops == ops[..i] + tail && tail[1..] == ops[i + 1..];
    DoOpsConcat(s, ops[..i], tail);
  }

  /** A start, then calls that do not cancel it, then perhaps a restart of timer x. */
  lemma {:induction false} StartThenMore(a: State, id: Id, ticks: U32, later: seq<Op>, x: Id, restart: Option<U32>)
    requires Inv(a) && !StartTimer(a, id, ticks).halted && OpsSpareCancel(later, id)
    ensures PendingAt(Restart(DoOps(StartTimer(a, id, ticks), later), x, restart).queue, id,
      a.now + (if ticks == 0 then 1 else ticks))
  {
    StartHaltsExactly(a, id, ticks);
    StartKeeps(a, id, ticks);
    StartDue(a, id, ticks);
    var e := Entry(id, a.now + (if ticks == 0 then 1 else ticks), |a.started|);
    StaysThroughOps(StartTimer(a, id, ticks), later, x, restart, e);
  }

  /** And it is pending after the tick, unless a later function of the tick cancels it. */
  lemma {:induction false} TickStarts(s: State, scripts: seq<Script>, k: nat, m: State, i: nat)
    requires Inv(s) && Settled(s) && !s.halted && k < |scripts| && !Tick(s, scripts).halted
    requires Reaches(s.(now := s.now + 1), scripts, k, m) && HeadDue(m)
    requires i < |scripts[k].ops| && scripts[k].ops[i].Start?
    requires OpsSpareCancel(scripts[k].ops[i + 1..], scripts[k].ops[i].id)
    requires ScriptsSpareCancel(scripts[k + 1..], scripts[k].ops[i].id)
    ensures var op := scripts[k].ops[i];
      PendingAt(Tick(s, scripts).queue, op.id, s.now + 1 + (if op.ticks == 0 then 1 else op.ticks))
  {
    var op := scripts[k].ops[i];
    var due := s.now + 1 + (if op.ticks == 0 then 1 else op.ticks);
    TickHalts(s, scripts, k, m);
    FunctionStarts(m, scripts[k], i);
    var e :| e in RunHead(m, scripts[k]).queue && e.id == op.id && e.due == due;
    StaysThroughTick(s, scripts, k, m, e);
  }

  /** A cancel that a timer function makes as its last call, without restarting itself, leaves that timer inactive. */
  lemma {:induction false} FunctionCancels(s: State, ops: seq<Op>, id: Id)
    requires Inv(s) && HeadDue(s) && !RunHead(s, Script(ops + [Cancel(id)], None)).halted
    ensures !Active(RunHead(s, Script(ops + [Cancel(id)], None)).queue, id)
  {
    var p := PopHead(s);
    var a := DoOps(p, ops);
    DoOpsConcat(p, ops, [Cancel(id)]);
    assert DoOps(a, [Cancel(id)]) == DoOps(DoOp(a, Cancel(id)), [Cancel(id)][1..]);
    PopKeeps(s);
    DoOpsKeeps(p, ops);
    CancelEnds(a, id);
  }
}
