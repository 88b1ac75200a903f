/**
  Button debouncing over the timer queue: an interrupt samples the level and restarts the
  button's timer; when the timer runs, a changed level is reported. Interrupts and ticks come in any
  order, and every other timer may do as it likes, except to the button's own.
 */
module Debounce {
  import opened Words
  import opened TimerQueue
  import T = TimerRuns

  /** A level and when it was sampled or reported. */
  datatype Sample = Sample(level: bool, at: nat)

  datatype Button = Button(raw: bool, debounced: bool, previous: bool)

  datatype World = World(
    timers: State,
    button: Button,
    presses: seq<Sample>,   // every interrupt so far
    calls: seq<Sample>)     // every callback so far

  datatype Event = Interrupt(level: bool) | Timers(ev: T.Event)

  // ----- the machine -----

  /** A timer function of timer b ran between s and r. */
  predicate Fired(s: State, r: State, b: Id) {
    exists k :: |s.fates| <= k < |r.fates| && r.fates[k].Ran? && r.fates[k].entry.id == b
  }

  /** The debounce handler: the sampled level becomes the debounced one, and a change is reported. */
  function Handle(w: World): (r: World) {
    w.(button := w.button.(previous := w.button.debounced, debounced := w.button.raw),
       calls := if w.button.raw != w.button.debounced then w.calls + [Sample(w.button.raw, w.timers.now)] else w.calls)
  }

  function Press(w: World, level: bool, b: Id, interval: U32): (r: World) {
    w.(timers := StartTimer(CancelTimer(w.timers, b), b, interval),
       button := w.button.(raw := level),
       presses := w.presses + [Sample(level, w.timers.now)])
  }

  function Step(w: World, e: Event, b: Id, interval: U32): (r: World) {
    if w.timers.halted then w
    else
      match e
      case Interrupt(level) => Press(w, level, b, interval)
      case Timers(ev) =>
        var w1 := w.(timers := T.Step(w.timers, ev));
        if Fired(w.timers, w1.timers, b) then Handle(w1) else w1
  }

  function Run(w: World, es: seq<Event>, b: Id, interval: U32): (r: World)
    decreases |es|
  {
    if es == [] then w else Run(Step(w, es[0], b, interval), es[1..], b, interval)
  }

  /** The debounced level starts as the level read at start-up; the raw one is not set until an interrupt. */
  ghost predicate Fresh(w: World, initial: bool, b: Id) {
    && TimersOk(w.timers) && Slot(w.timers.queue, b).None?
    && w.button.debounced == initial && w.presses == [] && w.calls == []
  }

  // ----- only the button's code touches the button's timer -----

  predicate OpsSpare(ops: seq<Op>, b: Id) {
    forall k :: 0 <= k < |ops| ==> ops[k].id != b
  }

  /** While due timers run, no function starts or cancels b, and b's own function returns 0. */
  predicate DrainSpares(s: State, scripts: seq<Script>, b: Id)
    decreases DueCount(s.queue, s.now)
  {
    HeadDue(s) ==>
      var script := NextScript(scripts);
      RunHeadProgress(s, script);
      && OpsSpare(script.ops, b)
      && (s.queue[0].id == b ==> script.restart.None?)
      && DrainSpares(RunHead(s, script), RestOf(scripts), b)
  }

  predicate Spares(s: State, ev: T.Event, b: Id) {
    match ev
    case OnStart(id, _) => id != b
    case OnCancel(id) => id != b
    case OnTick(scripts) => DrainSpares(s.(now := s.now + 1), scripts, b)
    case OnSleep(_) => true
  }

  predicate Legal(w: World, e: Event, b: Id) {
    e.Timers? && !w.timers.halted ==> T.Legal(w.timers, e.ev) && Spares(w.timers, e.ev, b)
  }

  predicate LegalRun(w: World, es: seq<Event>, b: Id, interval: U32)
    decreases |es|
  {
    es == [] || (Legal(w, es[0], b) && LegalRun(Step(w, es[0], b, interval), es[1..], b, interval))
  }

  // ----- the button's entry in the queue -----

  /** The pending entry of timer b, if any. */
  function Slot(q: seq<Entry>, b: Id): (r: Option<Entry>) {
    if q == [] then None else if q[0].id == b then Some(q[0]) else Slot(q[1..], b)
  }

  lemma {:induction false} SlotActive(q: seq<Entry>, b: Id)
    ensures Slot(q, b).Some? <==> Active(q, b)
    ensures Slot(q, b).Some? ==> Slot(q, b).value in q && Slot(q, b).value.id == b
  {
    if q != [] && q[0].id != b {
      SlotActive(q[1..], b);
      assert q == [q[0]] + q[1..];
    }
  }

  lemma {:induction false} SlotInsert(q: seq<Entry>, e: Entry, b: Id)
    ensures e.id != b ==> Slot(Insert(q, e), b) == Slot(q, b)
    ensures e.id == b && Slot(q, b).None? ==> Slot(Insert(q, e), b) == Some(e)
  {
    if q == [] || e.due < q[0].due {
      assert ([e] + q)[1..] == q;
    } else {
      SlotInsert(q[1..], e, b);
      assert ([q[0]] + Insert(q[1..], e))[1..] == Insert(q[1..], e);
    }
  }

  lemma {:induction false} SlotRemove(q: seq<Entry>, id: Id, b: Id)
    requires id != b
    ensures Slot(Remove(q, id), b) == Slot(q, b)
  {
    if q != [] && q[0].id != id {
      SlotRemove(q[1..], id, b);
      assert ([q[0]] + Remove(q[1..], id))[1..] == Remove(q[1..], id);
    }
  }

  lemma {:induction false} StartKeepsSlot(s: State, id: Id, ticks: U32, b: Id)
    requires id != b
    ensures Slot(StartTimer(s, id, ticks).queue, b) == Slot(s.queue, b)
  {
    SlotInsert(s.queue, Entry(id, s.now + DelayOf(ticks), |s.started|), b);
  }

  lemma {:induction false} CancelKeepsSlot(s: State, id: Id, b: Id)
    requires id != b
    ensures Slot(CancelTimer(s, id).queue, b) == Slot(s.queue, b)
  {
    SlotRemove(s.queue, id, b);
  }

  lemma {:induction false} OpsKeepSlot(s: State, ops: seq<Op>, b: Id)
    requires OpsSpare(ops, b)
    ensures Slot(DoOps(s, ops).queue, b) == Slot(s.queue, b)
    decreases |ops|
  {
    if ops != [] {
      match ops[0] {
        case Start(id, ticks) => StartKeepsSlot(s, id, ticks, b);
        case Cancel(id) => CancelKeepsSlot(s, id, b);
      }
      OpsKeepSlot(DoOp(s, ops[0]), ops[1..], b);
    }
  }

  /** Running another timer leaves b's entry alone; running b removes it. */
  lemma {:induction false} RunHeadSlot(s: State, script: Script, b: Id)
    requires HeadDue(s) && Ordered(s.queue) && OpsSpare(script.ops, b)
    requires s.queue[0].id == b ==> script.restart.None?
    ensures Slot(RunHead(s, script).queue, b) == if s.queue[0].id == b then None else Slot(s.queue, b)
  {
    var p := PopHead(s);
    if s.queue[0].id == b {
      SlotActive(p.queue, b);
    }
    OpsKeepSlot(p, script.ops, b);
    if script.restart.Some? {
      StartKeepsSlot(DoOps(p, script.ops), s.queue[0].id, Sub32(script.restart.value, 1), b);
    }
  }

  /** Whether b fires while the first timer runs and then the rest: it is the first, or fires later. */
  lemma {:induction false} FiredSplit(s: State, m: State, r: State, b: Id)
    requires HeadDue(s) && T.NewFatesCancelled(PopHead(s), m) && m.fates <= r.fates
    ensures Fired(s, r, b) <==> s.queue[0].id == b || Fired(m, r, b)
  {
    var h := |s.fates|;
    assert m.fates[h] == PopHead(s).fates[h];
    assert r.fates[h] == m.fates[h] == Ran(s.queue[0], s.now);
    forall k | h < k < |m.fates|
      ensures !r.fates[k].Ran?
    {
      assert r.fates[k] == m.fates[k];
    }
  }

  /** In one tick b fires only if it is due, and then it is no longer pending; otherwise its entry stays. */
  lemma {:induction false} DrainSlot(s: State, scripts: seq<Script>, b: Id)
    requires T.Inv(s) && DrainSpares(s, scripts, b)
    ensures var r := Drain(s, scripts);
      if Fired(s, r, b)
      then Slot(s.queue, b).Some? && Slot(s.queue, b).value.due <= s.now && Slot(r.queue, b).None?
      else Slot(r.queue, b) == Slot(s.queue, b)
    decreases DueCount(s.queue, s.now)
  {
    if HeadDue(s) {
      var script := NextScript(scripts);
      RunHeadProgress(s, script);
      T.RunHeadKeeps(s, script);
      RunHeadSlot(s, script, b);
      var m := RunHead(s, script);
      DrainSlot(m, RestOf(scripts), b);
      T.DrainKeeps(m, RestOf(scripts));
      FiredSplit(s, m, Drain(m, RestOf(scripts)), b);
    }
  }

  // ----- the invariant -----

  function LastLevel(initial: bool, calls: seq<Sample>): (r: bool) {
    if calls == [] then initial else calls[|calls| - 1].level
  }

  /** Each callback reports the opposite of the one before, the first the opposite of the initial level. */
  predicate Alternating(initial: bool, calls: seq<Sample>)
    decreases |calls|
  {
    calls != [] ==>
      var front := calls[..|calls| - 1];
      calls[|calls| - 1].level != LastLevel(initial, front) && Alternating(initial, front)
  }

  lemma {:induction false} AlternatingAt(initial: bool, calls: seq<Sample>, k: nat)
    requires Alternating(initial, calls) && k < |calls|
    ensures calls[k].level != if k == 0 then initial else calls[k - 1].level
    decreases |calls|
  {
    if k < |calls| - 1 {
      AlternatingAt(initial, calls[..|calls| - 1], k);
    }
  }

  /** Callback c reports the level of interrupt i, after an interval in which no interrupt came. */
  predicate Reports(c: Sample, presses: seq<Sample>, i: nat, wakes: seq<nat>, interval: U32) {
    && i < |presses| && presses[i].level == c.level
    && OnTime(presses[i].at + (if interval == 0 then 1 else interval), c.at, wakes)
    && (forall j :: i < j < |presses| ==> c.at <= presses[j].at)
  }

  predicate OnTime(due: nat, at: nat, wakes: seq<nat>) {
    at == due || (at == due + 1 && due in wakes)
  }

  /** What the button's guarantees depend on: of the timers, only when its own is due. */
  datatype View = View(
    button: Button, presses: seq<Sample>, calls: seq<Sample>, due: Option<nat>, now: nat, wakes: seq<nat>)

  function ViewOf(w: World, b: Id): (v: View) {
    var slot := Slot(w.timers.queue, b);
    View(w.button, w.presses, w.calls, if slot.Some? then Some(slot.value.due) else None, w.timers.now, w.timers.wakes)
  }

  ghost predicate Justified(v: View, interval: U32) {
    forall c :: c in v.calls ==> exists i: nat :: Reports(c, v.presses, i, v.wakes, interval)
  }

  /** The timer is pending exactly while the last interrupt has not been taken over. */
  predicate Tracks(v: View, interval: U32) {
    && (v.due.Some? ==> v.presses != [])
    && (v.presses != [] ==>
          var last := v.presses[|v.presses| - 1];
          && v.button.raw == last.level
          && (v.due.Some? ==> v.due.value == last.at + (if interval == 0 then 1 else interval))
          && (v.due.None? ==> v.button.debounced == last.level))
  }

  /** The callbacks so far are right, and so is the debounced level they lead to. */
  ghost predicate Faithful(v: View, initial: bool, interval: U32) {
    && Alternating(initial, v.calls) && v.button.debounced == LastLevel(initial, v.calls)
    && Justified(v, interval)
    && (forall c :: c in v.calls ==> c.at <= v.now)
  }

  ghost predicate TimersOk(s: State) {
    T.Inv(s) && (s.halted || T.Settled(s))
  }

  ghost predicate Good(w: World, initial: bool, b: Id, interval: U32) {
    && TimersOk(w.timers)
    && Tracks(ViewOf(w, b), interval)
    && Faithful(ViewOf(w, b), initial, interval)
  }

  // ----- on the view -----

  lemma {:induction false} PressView(v: View, level: bool, initial: bool, interval: U32)
    requires Faithful(v, initial, interval)
    ensures var r := v.(button := v.button.(raw := level), presses := v.presses + [Sample(level, v.now)],
                        due := Some(v.now + (if interval == 0 then 1 else interval)));
      Tracks(r, interval) && Faithful(r, initial, interval)
  {
    var presses := v.presses + [Sample(level, v.now)];
    forall c | c in v.calls
      ensures exists i: nat :: Reports(c, presses, i, v.wakes, interval)
    {
      var i: nat :| Reports(c, v.presses, i, v.wakes, interval);
      assert Reports(c, presses, i, v.wakes, interval);
    }
  }

  /** Time passes: later ticks and more sleeps. */
  lemma {:induction false} LaterView(v: View, initial: bool, interval: U32, now: nat, wakes: seq<nat>, due: Option<nat>)
    requires Faithful(v, initial, interval) && v.now <= now && v.wakes <= wakes
    ensures Faithful(v.(now := now, wakes := wakes, due := due), initial, interval)
  {
    forall c | c in v.calls
      ensures exists i: nat :: Reports(c, v.presses, i, wakes, interval)
    {
      var i: nat :| Reports(c, v.presses, i, v.wakes, interval);
      assert Reports(c, v.presses, i, wakes, interval);
    }
  }

  function Taken(v: View): (r: View) {
    v.(button := v.button.(previous := v.button.debounced, debounced := v.button.raw),
       calls := if v.button.raw != v.button.debounced then v.calls + [Sample(v.button.raw, v.now)] else v.calls)
  }

  /** One more callback, right in level and time. */
  lemma {:induction false} FaithfulMore(v: View, initial: bool, interval: U32, c: Sample)
    requires Faithful(v, initial, interval) && c.level != v.button.debounced && c.at == v.now && v.presses != []
    requires Reports(c, v.presses, |v.presses| - 1, v.wakes, interval)
    ensures Alternating(initial, v.calls + [c]) && LastLevel(initial, v.calls + [c]) == c.level
    ensures Justified(v.(calls := v.calls + [c]), interval)
    ensures forall x :: x in v.calls + [c] ==> x.at <= v.now
  {
    assert (v.calls + [c])[..|v.calls|] == v.calls;
  }

  /** The last interrupt is taken over when its timer fires on time. */
  lemma {:induction false} TakenView(v: View, initial: bool, interval: U32)
    requires Faithful(v, initial, interval) && v.due.None? && v.presses != []
    requires var last := v.presses[|v.presses| - 1];
      v.button.raw == last.level && OnTime(last.at + (if interval == 0 then 1 else interval), v.now, v.wakes)
    ensures Tracks(Taken(v), interval) && Faithful(Taken(v), initial, interval)
  {
    if v.button.raw != v.button.debounced {
      FaithfulMore(v, initial, interval, Sample(v.button.raw, v.now));
    }
  }

  // ----- on the timers -----

  lemma {:induction false} PressSlot(s: State, b: Id, interval: U32)
    requires Ordered(s.queue) && !s.halted
    ensures var r := StartTimer(CancelTimer(s, b), b, interval);
      && r.now == s.now && r.wakes == s.wakes
      && Slot(r.queue, b).Some? && Slot(r.queue, b).value.due == s.now + (if interval == 0 then 1 else interval)
  {
    var c := CancelTimer(s, b);
    if Active(s.queue, b) {
      T.RemoveOrdered(s.queue, b);
    }
    SlotActive(c.queue, b);
    SlotInsert(c.queue, Entry(b, c.now + DelayOf(interval), |c.started|), b);
  }

  lemma {:induction false} PressTimers(s: State, b: Id, interval: U32)
    requires TimersOk(s) && !s.halted
    ensures TimersOk(StartTimer(CancelTimer(s, b), b, interval))
  {
    var c := CancelTimer(s, b);
    T.StepKeeps(s, T.OnCancel(b));
    T.StepKeeps(c, T.OnStart(b, interval));
  }

  lemma {:induction false} OtherSlot(s: State, ev: T.Event, b: Id)
    requires !ev.OnTick? && Spares(s, ev, b)
    ensures var r := T.Step(s, ev);
      && s.now <= r.now && s.wakes <= r.wakes
      && !Fired(s, r, b) && Slot(r.queue, b) == Slot(s.queue, b)
  {
    match ev {
      case OnStart(id, ticks) => StartKeepsSlot(s, id, ticks, b);
      case OnCancel(id) => CancelKeepsSlot(s, id, b);
      case OnSleep(n) =>
    }
  }

  /** A due entry is on time, since nothing due is left over between ticks. */
  lemma {:induction false} SlotOnTime(s: State, b: Id)
    requires T.Settled(s) && Slot(s.queue, b).Some? && Slot(s.queue, b).value.due <= s.now + 1
    ensures OnTime(Slot(s.queue, b).value.due, s.now + 1, s.wakes)
  {
    SlotActive(s.queue, b);
  }

  lemma {:induction false} TickSlot(s: State, scripts: seq<Script>, b: Id)
    requires T.Inv(s) && T.Settled(s) && !s.halted && Spares(s, T.OnTick(scripts), b)
    ensures var r := Tick(s, scripts);
      && r.now == s.now + 1 && r.wakes == s.wakes
      && (if Fired(s, r, b)
          then Slot(r.queue, b).None? && Slot(s.queue, b).Some? && Slot(s.queue, b).value.due <= s.now + 1
          else Slot(r.queue, b) == Slot(s.queue, b))
  {
    var s1 := s.(now := s.now + 1);
    T.NextTickInv(s);
    DrainedSlot(s1, scripts, b);
    FiredSame(s, s1, Drain(s1, scripts), b);
  }

  lemma {:induction false} DrainedSlot(s: State, scripts: seq<Script>, b: Id)
    requires T.Inv(s) && DrainSpares(s, scripts, b)
    ensures var r := Drain(s, scripts);
      && r.now == s.now && r.wakes == s.wakes
      && (if Fired(s, r, b)
          then Slot(r.queue, b).None? && Slot(s.queue, b).Some? && Slot(s.queue, b).value.due <= s.now
          else Slot(r.queue, b) == Slot(s.queue, b))
  {
    DrainClock(s, scripts);
    DrainSlot(s, scripts, b);
  }

  lemma {:induction false} DrainClock(s: State, scripts: seq<Script>)
    requires T.Inv(s)
    ensures Drain(s, scripts).now == s.now && Drain(s, scripts).wakes == s.wakes
  {
    T.DrainKeeps(s, scripts);
  }

  lemma {:induction false} FiredSame(s: State, s1: State, r: State, b: Id)
    requires s.fates == s1.fates
    ensures Fired(s, r, b) <==> Fired(s1, r, b)
  {
  }

  // ----- every step keeps the guarantees -----

  lemma {:induction false} TickTimers(s: State, scripts: seq<Script>, b: Id)
    requires TimersOk(s) && !s.halted && Spares(s, T.OnTick(scripts), b)
    ensures var r := Tick(s, scripts);
      && TimersOk(r) && r.now == s.now + 1 && r.wakes == s.wakes
      && (Fired(s, r, b) ==>
            Slot(r.queue, b).None? && Slot(s.queue, b).Some? && OnTime(Slot(s.queue, b).value.due, r.now, r.wakes))
      && (!Fired(s, r, b) ==> Slot(r.queue, b) == Slot(s.queue, b))
  {
    T.TickKeeps(s, scripts);
    TickSlot(s, scripts, b);
    if Fired(s, Tick(s, scripts), b) {
      SlotOnTime(s, b);
    }
  }

  /** What a tick does to the view, given what it does to the button's timer. */
  lemma {:induction false} TickView(v: View, v1: View, fired: bool, initial: bool, interval: U32)
    requires Tracks(v, interval) && Faithful(v, initial, interval)
    requires v1 == v.(now := v.now + 1, due := v1.due)
    requires if fired then v1.due.None? && v.due.Some? && OnTime(v.due.value, v1.now, v1.wakes) else v1.due == v.due
    ensures var r := if fired then Taken(v1) else v1; Tracks(r, interval) && Faithful(r, initial, interval)
  {
    LaterView(v, initial, interval, v1.now, v1.wakes, v1.due);
    if fired {
      TakenView(v1, initial, interval);
    }
  }

  lemma {:induction false} TickKeeps(w: World, scripts: seq<Script>, initial: bool, b: Id, interval: U32)
    requires Good(w, initial, b, interval) && !w.timers.halted && Spares(w.timers, T.OnTick(scripts), b)
    ensures Good(Step(w, Timers(T.OnTick(scripts)), b, interval), initial, b, interval)
  {
    TickTimers(w.timers, scripts, b);
    var w1 := w.(timers := Tick(w.timers, scripts));
    TickView(ViewOf(w, b), ViewOf(w1, b), Fired(w.timers, w1.timers, b), initial, interval);
  }

  lemma {:induction false} OtherKeeps(w: World, ev: T.Event, initial: bool, b: Id, interval: U32)
    requires Good(w, initial, b, interval) && !w.timers.halted && T.Legal(w.timers, ev)
    requires !ev.OnTick? && Spares(w.timers, ev, b)
    ensures Good(Step(w, Timers(ev), b, interval), initial, b, interval)
  {
    T.StepKeeps(w.timers, ev);
    OtherSlot(w.timers, ev, b);
    var w1 := w.(timers := T.Step(w.timers, ev));
    var v, v1 := ViewOf(w, b), ViewOf(w1, b);
    LaterView(v, initial, interval, v1.now, v1.wakes, v1.due);
    assert v1 == v.(now := v1.now, wakes := v1.wakes, due := v1.due);
  }

  lemma {:induction false} PressKeeps(w: World, level: bool, initial: bool, b: Id, interval: U32)
    requires Good(w, initial, b, interval) && !w.timers.halted
    ensures Good(Press(w, level, b, interval), initial, b, interval)
  {
    PressTimers(w.timers, b, interval);
    PressSlot(w.timers, b, interval);
    PressView(ViewOf(w, b), level, initial, interval);
  }

  lemma {:induction false} StepKeeps(w: World, e: Event, initial: bool, b: Id, interval: U32)
    requires Good(w, initial, b, interval) && Legal(w, e, b)
    ensures Good(Step(w, e, b, interval), initial, b, interval)
  {
    if !w.timers.halted {
      match e {
        case Interrupt(level) => PressKeeps(w, level, initial, b, interval);
        case Timers(ev) =>
          if ev.OnTick? {
            TickKeeps(w, ev.scripts, initial, b, interval);
          } else {
            OtherKeeps(w, ev, initial, b, interval);
          }
      }
    }
  }

  lemma {:induction false} RunKeeps(w: World, es: seq<Event>, initial: bool, b: Id, interval: U32)
    requires Good(w, initial, b, interval) && LegalRun(w, es, b, interval)
    ensures Good(Run(w, es, b, interval), initial, b, interval)
    decreases |es|
  {
    if es != [] {
      StepKeeps(w, es[0], initial, b, interval);
      RunKeeps(Step(w, es[0], b, interval), es[1..], initial, b, interval);
    }
  }

  // ----- the theorems -----

  /** In every interleaving callbacks alternate, starting opposite to the initial level. */
  lemma {:induction false} CallbacksAlternate(w: World, es: seq<Event>, initial: bool, b: Id, interval: U32, k: nat)
    requires Fresh(w, initial, b) && LegalRun(w, es, b, interval)
    requires k < |Run(w, es, b, interval).calls|
    ensures var calls := Run(w, es, b, interval).calls;
      calls[k].level != if k == 0 then initial else calls[k - 1].level
  {
    RunKeeps(w, es, initial, b, interval);
    AlternatingAt(initial, Run(w, es, b, interval).calls, k);
  }

  /** Each callback reports the level sampled at the last interrupt before it, and comes one debounce
      interval after that interrupt, or a tick later if a sleep ended just then. */
  lemma {:induction false} CallbacksReportQuietLevel(
    w: World, es: seq<Event>, initial: bool, b: Id, interval: U32, k: nat) returns (i: nat)
    requires Fresh(w, initial, b) && LegalRun(w, es, b, interval)
    requires k < |Run(w, es, b, interval).calls|
    ensures var r := Run(w, es, b, interval); Reports(r.calls[k], r.presses, i, r.timers.wakes, interval)
  {
    RunKeeps(w, es, initial, b, interval);
    var r := Run(w, es, b, interval);
    assert r.calls[k] in r.calls;
    i :| Reports(r.calls[k], r.presses, i, r.timers.wakes, interval);
  }

  /** Conversely a level that stays is taken over: when the interval has passed since the last
      interrupt, the debounced level, and the last one reported, is the level sampled then. */
  lemma {:induction false} QuietLevelIsTaken(w: World, es: seq<Event>, initial: bool, b: Id, interval: U32)
    requires Fresh(w, initial, b) && LegalRun(w, es, b, interval)
    requires var r := Run(w, es, b, interval);
      !r.timers.halted && r.presses != [] && r.presses[|r.presses| - 1].at + (if interval == 0 then 1 else interval) < r.timers.now
    ensures var r := Run(w, es, b, interval); var last := r.presses[|r.presses| - 1];
      r.button.debounced == last.level && LastLevel(initial, r.calls) == last.level
  {
    RunKeeps(w, es, initial, b, interval);
    SlotActive(Run(w, es, b, interval).timers.queue, b);
  }

  // ----- what counts as an interrupt -----

  function Interrupts(es: seq<Event>): (r: seq<bool>)
    decreases |es|
  {
    if es == [] then [] else (if es[0].Interrupt? then [es[0].level] else []) + Interrupts(es[1..])
  }

  function Levels(samples: seq<Sample>): (r: seq<bool>)
    ensures |r| == |samples| && forall k :: 0 <= k < |r| ==> r[k] == samples[k].level
  {
    seq(|samples|, k requires 0 <= k < |samples| => samples[k].level)
  }

  lemma {:induction false} HaltedRun(w: World, es: seq<Event>, b: Id, interval: U32)
    requires w.timers.halted
    ensures Run(w, es, b, interval) == w
    decreases |es|
  {
    if es != [] {
      HaltedRun(w, es[1..], b, interval);
    }
  }

  lemma {:induction false} StepSamples(w: World, e: Event, b: Id, interval: U32)
    requires !w.timers.halted
    ensures Levels(Step(w, e, b, interval).presses) == Levels(w.presses) + if e.Interrupt? then [e.level] else []
  {
    assert Levels(w.presses) + [] == Levels(w.presses);
  }

  /** The samples are the levels of the interrupts, each once and in order. */
  lemma {:induction false} SamplesAreInterrupts(w: World, es: seq<Event>, b: Id, interval: U32)
    requires !Run(w, es, b, interval).timers.halted
    ensures Levels(Run(w, es, b, interval).presses) == Levels(w.presses) + Interrupts(es)
    decreases |es|
  {
    if es == [] {
      assert Levels(w.presses) + [] == Levels(w.presses);
    } else {
      if w.timers.halted {
        HaltedRun(w, es, b, interval);
        assert false;
      }
      var m, r := Step(w, es[0], b, interval), Run(w, es, b, interval);
      var first := if es[0].Interrupt? then [es[0].level] else [];
      StepSamples(w, es[0], b, interval);
      SamplesAreInterrupts(m, es[1..], b, interval);
      SamplesJoin(Levels(r.presses), Levels(m.presses), Levels(w.presses), first, Interrupts(es[1..]));
    }
  }

  lemma {:induction false} SamplesJoin(r: seq<bool>, m: seq<bool>, w: seq<bool>, first: seq<bool>, rest: seq<bool>)
    requires r == m + rest && m == w + first
    ensures r == w + (first + rest)
  {
  }

  lemma {:induction false} RunLast(w: World, es: seq<Event>, e: Event, b: Id, interval: U32)
    ensures Run(w, es + [e], b, interval) == Step(Run(w, es, b, interval), e, b, interval)
    decreases |es|
  {
    if es == [] {
      assert es + [e] == [e];
    } else {
      assert (es + [e])[0] == es[0] && (es + [e])[1..] == es[1..] + [e];
      RunLast(Step(w, es[0], b, interval), es[1..], e, b, interval);
    }
  }

  /** A sample is dated with the time of its interrupt, and the timer then runs from there. */
  lemma {:induction false} SampleTime(w: World, es: seq<Event>, level: bool, b: Id, interval: U32)
    requires !Run(w, es, b, interval).timers.halted && Ordered(Run(w, es, b, interval).timers.queue)
    ensures var m, r := Run(w, es, b, interval), Run(w, es + [Interrupt(level)], b, interval);
      && r.presses == m.presses + [Sample(level, m.timers.now)] && r.button.raw == level
      && Slot(r.timers.queue, b).Some?
      && Slot(r.timers.queue, b).value.due == m.timers.now + (if interval == 0 then 1 else interval)
  {
    RunLast(w, es, Interrupt(level), b, interval);
    PressSlot(Run(w, es, b, interval).timers, b, interval);
  }
}
