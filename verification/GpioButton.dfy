/**
  The debounced button driver on top of the software timers.
 */
module GpioButton {
  import opened Words
  import opened TimerQueue
  import opened SwTimer
  import opened Debounce
  import T = TimerRuns

  /** The runs in the second part of a history are those listed after the first part's. */
  lemma {:induction false} RanMeansFired(early: seq<Fate>, fates: seq<Fate>, ran: seq<Id>, b: Id)
    requires early <= fates && RanIds(fates) == RanIds(early) + ran
    ensures b in ran <==> exists k :: |early| <= k < |fates| && fates[k].Ran? && fates[k].entry.id == b
    decreases |fates|
  {
    if |fates| == |early| {
      assert fates == early;
      assert |RanIds(early) + ran| == |RanIds(early)| + |ran|;
    } else {
      var n := |fates| - 1;
      var last := fates[n];
      var front := fates[..n];
      var more := RanSince(early, front);
      RanMeansFired(early, front, more, b);
      var tail := if last.Ran? then [last.entry.id] else [];
      SameTail(RanIds(early), ran, more, tail);
      assert forall k :: |early| <= k < n ==> front[k] == fates[k];
    }
  }

  lemma {:induction false} SameTail(a: seq<Id>, ran: seq<Id>, more: seq<Id>, tail: seq<Id>)
    requires a + ran == (a + more) + tail
    ensures ran == more + tail
  {
    assert (a + ran)[|a|..] == ran;
    assert ((a + more) + tail)[|a|..] == more + tail;
  }

  /** What RanIds gains from the second part of a history. */
  function RanSince(early: seq<Fate>, fates: seq<Fate>): (r: seq<Id>)
    requires early <= fates
    ensures RanIds(fates) == RanIds(early) + r
    decreases |fates|
  {
    if |fates| == |early| then
      assert fates == early;
      []
    else
      var n := |fates| - 1;
      RanSince(early, fates[..n]) + if fates[n].Ran? then [fates[n].entry.id] else []
  }

  function IsDown(pin: bool, lowIsDown: bool): (r: bool) {
    if lowIsDown then !pin else pin
  }

  /** A button is down when the pin is at its active level. */
  lemma {:induction false} DownWhenActive(pin: bool, lowIsDown: bool)
    ensures IsDown(pin, lowIsDown) == (pin != lowIsDown)
  {
  }

  class ButtonDriver {
    const scheduler: Scheduler
    const id: Id                // the button's timer
    const interval: U32         // NL_BUTTON_DEBOUNCE_TIME_INTERVAL_MS in ticks
    const lowIsDown: bool

    var raw: bool               // raw_button, not set by initialisation
    var debounced: bool
    var previous: bool
    var wasDown: bool

    ghost predicate Shows(w: World)
      reads this, scheduler, scheduler.timers
    {
      && id < |scheduler.timers|
      && scheduler.Represents(w.timers) && scheduler.ClockOk(w.timers)
      && Button(raw, debounced, previous) == w.button
    }

    /** nlgpio_button_init for one button: both debounced levels are read from the pin. */
    constructor (scheduler: Scheduler, id: Id, interval: U32, lowIsDown: bool, pin: bool, ghost s: State)
      requires id < |scheduler.timers| && scheduler.Represents(s) && scheduler.ClockOk(s)
      requires TimersOk(s) && !Active(s.queue, id)
      ensures this.scheduler == scheduler && this.id == id && this.interval == interval && this.lowIsDown == lowIsDown
      ensures debounced == (pin != lowIsDown) && previous == (pin != lowIsDown)
      ensures var w := World(s, Button(raw, debounced, previous), [], []);
        Shows(w) && Fresh(w, pin != lowIsDown, id)
    {
      this.scheduler, this.id, this.interval, this.lowIsDown := scheduler, id, interval, lowIsDown;
      debounced := IsDown(pin, lowIsDown);
      previous := IsDown(pin, lowIsDown);
      SlotActive(s.queue, id);
    }

    method RestartTimer(ghost s: State)
      requires id < |scheduler.timers| && scheduler.Represents(s) && scheduler.ClockOk(s)
      modifies scheduler, scheduler.timers
      ensures var r := StartTimer(CancelTimer(s, id), id, interval);
        scheduler.Represents(r) && scheduler.ClockOk(r)
    {
      var _ := scheduler.Cancel(id, s);
      scheduler.Start(id, interval, CancelTimer(s, id));
    }

    method Isr(pin: bool, ghost w: World)
      requires Shows(w) && !w.timers.halted
      modifies this, scheduler, scheduler.timers
      ensures Shows(Press(w, pin != lowIsDown, id, interval)) && raw == (pin != lowIsDown) && wasDown
    {
      wasDown := true;
      raw := IsDown(pin, lowIsDown);
      RestartTimer(w.timers);
    }

    /** Returns the level passed to the callback, if it is called. */
    method DebounceHandler() returns (reported: Option<bool>)
      modifies this`debounced, this`previous
      ensures previous == old(debounced) && debounced == raw
      ensures reported == if raw != old(debounced) then Some(raw) else None
    {
      previous := debounced;
      debounced := raw;
      reported := None;
      if debounced != previous {
        reported := Some(debounced);
      }
    }

    /** A tick; if the button's timer runs in it, so does the debounce handler. */
    method Tick(scripts: seq<Script>, ghost w: World) returns (reported: Option<bool>)
      requires Shows(w) && !w.timers.halted && ScriptsBelow(scripts, |scheduler.timers|)
      modifies this, scheduler, scheduler.timers
      ensures var r := Step(w, Timers(T.OnTick(scripts)), id, interval);
        Shows(r) && r.calls == w.calls + if reported.Some? then [Sample(reported.value, r.timers.now)] else []
    {
      var ran := scheduler.TickHandler(scripts, w.timers);
      reported := None;
      TickFired(w.timers, scripts, ran, id);
      if id in ran {
        reported := DebounceHandler();
      }
    }

    method Other(ev: T.Event, ghost w: World)
      requires Shows(w) && !w.timers.halted && !ev.OnTick? && T.Legal(w.timers, ev) && Spares(w.timers, ev, id)
      requires EventBelow(ev, |scheduler.timers|)
      modifies scheduler, scheduler.timers
      ensures Shows(Step(w, Timers(ev), id, interval)) && Step(w, Timers(ev), id, interval).calls == w.calls
    {
      scheduler.Perform(ev, w.timers);
      OtherSlot(w.timers, ev, id);
    }

    /** A tick, or any other timer activity. */
    method Advance(ev: T.Event, ghost w: World) returns (reported: seq<bool>)
      requires Shows(w) && !w.timers.halted && T.Legal(w.timers, ev) && Spares(w.timers, ev, id)
      requires EventBelow(ev, |scheduler.timers|)
      modifies this, scheduler, scheduler.timers
      ensures Shows(Step(w, Timers(ev), id, interval))
      ensures Levels(Step(w, Timers(ev), id, interval).calls) == Levels(w.calls) + reported
    {
      reported := [];
      if ev.OnTick? {
        var level := Tick(ev.scripts, w);
        if level.Some? {
          reported := [level.value];
        }
      } else {
        Other(ev, w);
      }
    }

    method Perform(e: Event, ghost w: World) returns (reported: seq<bool>)
      requires Shows(w) && Legal(w, e, id)
      requires e.Timers? ==> EventBelow(e.ev, |scheduler.timers|)
      modifies this, scheduler, scheduler.timers
      ensures Shows(Step(w, e, id, interval))
      ensures Levels(Step(w, e, id, interval).calls) == Levels(w.calls) + reported
    {
      reported := [];
      if !scheduler.halted {
        match e {
          case Interrupt(level) =>
            assert Step(w, e, id, interval) == Press(w, level, id, interval);
            Isr(level != lowIsDown, w);
          case Timers(ev) => reported := Advance(ev, w);
        }
      }
    }

    /** Any interleaving of interrupts, ticks and other timer activity. */
    method Execute(es: seq<Event>, ghost w: World) returns (reported: seq<bool>)
      requires Shows(w) && LegalRun(w, es, id, interval)
      requires forall k :: 0 <= k < |es| && es[k].Timers? ==> EventBelow(es[k].ev, |scheduler.timers|)
      modifies this, scheduler, scheduler.timers
      ensures Shows(Run(w, es, id, interval))
      ensures Levels(Run(w, es, id, interval).calls) == Levels(w.calls) + reported
    {
      ghost var m := w;
      reported := [];
      for k := 0 to |es|
        invariant Shows(m) && Levels(m.calls) == Levels(w.calls) + reported
        invariant Ahead(m, w, es, k, id, interval)
      {
        AheadStep(m, w, es, k, id, interval);
        var more := Perform(es[k], m);
        m := Step(m, es[k], id, interval);
        reported := reported + more;
      }
    }
  }

  /** The machine has come from w to m by the first k events. */
  predicate Ahead(m: World, w: World, es: seq<Event>, k: nat, b: Id, interval: U32) {
    k <= |es| && LegalRun(m, es[k..], b, interval) && Run(m, es[k..], b, interval) == Run(w, es, b, interval)
  }

  lemma {:induction false} AheadStep(m: World, w: World, es: seq<Event>, k: nat, b: Id, interval: U32)
    requires Ahead(m, w, es, k, b, interval) && k < |es|
    ensures Legal(m, es[k], b) && Ahead(Step(m, es[k], b, interval), w, es, k + 1, b, interval)
  {
    assert es[k..][0] == es[k] && es[k..][1..] == es[k + 1..];
  }

  lemma {:induction false} DrainGrows(s: State, scripts: seq<Script>)
    ensures s.fates <= Drain(s, scripts).fates
    decreases DueCount(s.queue, s.now)
  {
    if HeadDue(s) {
      var script := NextScript(scripts);
      RunHeadProgress(s, script);
      OpsOnlyCancel(PopHead(s), script.ops);
      DrainGrows(RunHead(s, script), RestOf(scripts));
    }
  }

  lemma {:induction false} TickFired(s: State, scripts: seq<Script>, ran: seq<Id>, b: Id)
    requires !s.halted && RanIds(TimerQueue.Tick(s, scripts).fates) == RanIds(s.fates) + ran
    ensures b in ran <==> Fired(s, TimerQueue.Tick(s, scripts), b)
  {
    DrainGrows(s.(now := s.now + 1), scripts);
    RanMeansFired(s.fates, TimerQueue.Tick(s, scripts).fates, ran, b);
  }
}
