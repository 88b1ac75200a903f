/**
  What the event trace is: a FIFO of started events, printed from the front once they have ended.
 */
module TraceFifo {
  import opened Words

  /** A traced event in its slot; names and tasks are the addresses of strings, and end 0 is "not ended". */
  datatype Ev = Ev(slot: nat, name: nat, task: nat, start: U32, end: U32)

  datatype State = State(queue: seq<Ev>, printed: seq<Ev>, started: seq<Ev>, enabled: bool)

  datatype Event =
    | OnStart(name: nat, task: nat, now: U32)
    | OnEnd(id: nat, name: nat, now: U32)
    | OnPrint
    | OnEnable(on: bool)

  // ----- slots -----

  predicate Uses(q: seq<Ev>, slot: nat) {
    exists e :: e in q && e.slot == slot
  }

  /** The lowest free slot from i on; n + 1 (INVALID_INDEX) if there is none. */
  function LowestFree(q: seq<Ev>, i: nat, n: nat): (r: nat)
    requires i <= n
    ensures (i <= r < n && !Uses(q, r)) || r == n + 1
    ensures forall k :: i <= k < n && k < r ==> Uses(q, k)
    decreases n - i
  {
    if i == n then n + 1 else if !Uses(q, i) then i else LowestFree(q, i + 1, n)
  }

  // ----- operations -----

  function Start(s: State, n: nat, name: nat, task: nat, now: U32): (r: State) {
    var slot := LowestFree(s.queue, 0, n);
    if !s.enabled || slot > n then s
    else
      var e := Ev(slot, name, task, now, 0);
      s.(queue := s.queue + [e], started := s.started + [e])
  }

  function SetEnd(q: seq<Ev>, id: nat, name: nat, now: U32): (r: seq<Ev>)
    ensures |r| == |q|
  {
    if q == [] then []
    else if q[0].slot == id then
      [if q[0].name == name && q[0].end == 0 then q[0].(end := now) else q[0]] + q[1..]
    else [q[0]] + SetEnd(q[1..], id, name, now)
  }

  function End(s: State, id: nat, name: nat, now: U32): (r: State) {
    if s.enabled then s.(queue := SetEnd(s.queue, id, name, now)) else s
  }

  predicate HeadEnded(s: State) {
    s.queue != [] && s.queue[0].end != 0
  }

  function PrintHead(s: State): (r: State)
    requires HeadEnded(s)
  {
    s.(queue := s.queue[1..], printed := s.printed + [s.queue[0]])
  }

  function Print(s: State): (r: State)
    decreases |s.queue|
  {
    if HeadEnded(s) then Print(PrintHead(s)) else s
  }

  function Step(s: State, n: nat, ev: Event): (r: State) {
    match ev
    case OnStart(name, task, now) => Start(s, n, name, task, now)
    case OnEnd(id, name, now) => End(s, id, name, now)
    case OnPrint => Print(s)
    case OnEnable(on) => s.(enabled := on)
  }

  function Run(s: State, n: nat, evs: seq<Event>): (r: State)
    decreases |evs|
  {
    if evs == [] then s else Run(Step(s, n, evs[0]), n, evs[1..])
  }

  const Boot := State([], [], [], false)

  // ----- what every run keeps -----

  /** An event apart from when it ended. */
  function Stamp(e: Ev): Ev {
    e.(end := 0)
  }

  function Stamps(q: seq<Ev>): (r: seq<Ev>)
    ensures |r| == |q| && forall i :: 0 <= i < |r| ==> r[i] == Stamp(q[i])
  {
    seq(|q|, i requires 0 <= i < |q| => Stamp(q[i]))
  }

  predicate SlotsDiffer(q: seq<Ev>, i: nat, j: nat)
    requires i < |q| && j < |q|
  {
    q[i].slot != q[j].slot
  }

  predicate DistinctSlots(q: seq<Ev>, n: nat) {
    && (forall i :: 0 <= i < |q| ==> q[i].slot < n)
    && (forall i, j :: 0 <= i < j < |q| ==> SlotsDiffer(q, i, j))
  }

  /** First started, first printed: what has been printed, then what is queued, is what was started. */
  predicate Fifo(s: State) {
    Stamps(s.printed + s.queue) == s.started
  }

  predicate Inv(s: State, n: nat) {
    Fifo(s) && DistinctSlots(s.queue, n) && forall e :: e in s.printed ==> e.end != 0
  }

  lemma {:induction false} SetEndAt(q: seq<Ev>, id: nat, name: nat, now: U32, i: nat)
    requires i < |q| && forall j :: 0 <= j < i ==> SlotsDiffer(q, j, i)
    ensures SetEnd(q, id, name, now)[i] ==
            if q[i].slot == id && q[i].name == name && q[i].end == 0 then q[i].(end := now) else q[i]
  {
    if i > 0 {
      assert SlotsDiffer(q, 0, i);
      if q[0].slot != id {
        var t, m := q[1..], i - 1;
        forall j | 0 <= j < m ensures SlotsDiffer(t, j, m) {
          assert SlotsDiffer(q, j + 1, i);
        }
        SetEndAt(t, id, name, now, m);
      }
    }
  }

  lemma {:induction false} EndKeeps(s: State, n: nat, id: nat, name: nat, now: U32)
    requires Inv(s, n)
    ensures Inv(End(s, id, name, now), n)
  {
    var r := SetEnd(s.queue, id, name, now);
    forall i | 0 <= i < |r| ensures Stamp(r[i]) == Stamp(s.queue[i]) && r[i].slot == s.queue[i].slot {
      SetEndAt(s.queue, id, name, now, i);
    }
    assert Stamps(s.printed + r) == Stamps(s.printed + s.queue);
    forall i, j | 0 <= i < j < |r| ensures SlotsDiffer(r, i, j) {
      assert SlotsDiffer(s.queue, i, j);
    }
  }

  lemma {:induction false} StartKeeps(s: State, n: nat, name: nat, task: nat, now: U32)
    requires Inv(s, n)
    ensures Inv(Start(s, n, name, task, now), n)
  {
    var slot := LowestFree(s.queue, 0, n);
    if s.enabled && slot <= n {
      var e := Ev(slot, name, task, now, 0);
      forall i | 0 <= i < |s.queue| ensures s.queue[i].slot != slot {
        assert s.queue[i] in s.queue;
      }
      assert Stamps(s.printed + (s.queue + [e])) == Stamps(s.printed + s.queue) + [e];
      var r := s.queue + [e];
      forall i, j | 0 <= i < j < |r| ensures SlotsDiffer(r, i, j) {
        if j < |s.queue| {
          assert SlotsDiffer(s.queue, i, j);
        }
      }
    }
  }

  lemma {:induction false} PrintHeadKeeps(s: State, n: nat)
    requires Inv(s, n) && HeadEnded(s)
    ensures Inv(PrintHead(s), n)
  {
    PrintHeadFifo(s);
    TailDistinct(s.queue, n);
  }

  lemma {:induction false} PrintHeadFifo(s: State)
    requires Fifo(s) && HeadEnded(s)
    ensures Fifo(PrintHead(s))
  {
    assert (s.printed + [s.queue[0]]) + s.queue[1..] == s.printed + s.queue;
  }

  lemma {:induction false} TailDistinct(q: seq<Ev>, n: nat)
    requires DistinctSlots(q, n) && q != []
    ensures DistinctSlots(q[1..], n)
  {
    var t := q[1..];
    forall i, j | 0 <= i < j < |t| ensures SlotsDiffer(t, i, j) {
      assert SlotsDiffer(q, i + 1, j + 1);
    }
  }

  /** Printing takes exactly the longest ended prefix off the queue. */
  predicate TookEndedPrefix(s: State, r: State, k: nat) {
    && k <= |s.queue|
    && r.printed == s.printed + s.queue[..k] && r.queue == s.queue[k..]
    && (forall i :: 0 <= i < k ==> s.queue[i].end != 0)
    && (k < |s.queue| ==> s.queue[k].end == 0)
  }

  lemma {:induction false} PrintTakesEndedPrefix(s: State) returns (k: nat)
    ensures TookEndedPrefix(s, Print(s), k)
    ensures Print(s).started == s.started && Print(s).enabled == s.enabled
    decreases |s.queue|
  {
    if HeadEnded(s) {
      var j := PrintTakesEndedPrefix(PrintHead(s));
      k := j + 1;
      assert s.printed + [s.queue[0]] + s.queue[1..][..j] == s.printed + s.queue[..k];
      assert s.queue[1..][j..] == s.queue[k..];
      forall i | 0 <= i < k ensures s.queue[i].end != 0 {
        assert i > 0 ==> s.queue[i] == s.queue[1..][i - 1];
      }
    } else {
      k := 0;
      assert s.printed + s.queue[..0] == s.printed;
    }
  }

  lemma {:induction false} PrintKeeps(s: State, n: nat)
    requires Inv(s, n)
    ensures Inv(Print(s), n)
    decreases |s.queue|
  {
    if HeadEnded(s) {
      PrintHeadKeeps(s, n);
      PrintKeeps(PrintHead(s), n);
    }
  }

  lemma {:induction false} StepKeeps(s: State, n: nat, ev: Event)
    requires Inv(s, n)
    ensures Inv(Step(s, n, ev), n)
  {
    match ev
    case OnStart(name, task, now) => StartKeeps(s, n, name, task, now);
    case OnEnd(id, name, now) => EndKeeps(s, n, id, name, now);
    case OnPrint => PrintKeeps(s, n);
    case OnEnable(_) =>
  }

  /** In every run, events are printed in the order they were started, each once and only after it
      ended, and no two queued events share a slot. */
  lemma {:induction false} RunKeeps(s: State, n: nat, evs: seq<Event>)
    requires Inv(s, n)
    ensures Inv(Run(s, n, evs), n)
    decreases |evs|
  {
    if evs != [] {
      StepKeeps(s, n, evs[0]);
      RunKeeps(Step(s, n, evs[0]), n, evs[1..]);
    }
  }

  lemma {:induction false} BootKeeps(n: nat, evs: seq<Event>)
    ensures Inv(Run(Boot, n, evs), n)
  {
    assert Inv(Boot, n);
    RunKeeps(Boot, n, evs);
  }

  // ----- when allocation fails -----

  function Slots(q: seq<Ev>): (r: set<nat>) {
    set i | 0 <= i < |q| :: q[i].slot
  }

  lemma {:induction false} SlotsSize(q: seq<Ev>, n: nat)
    requires DistinctSlots(q, n)
    ensures |Slots(q)| == |q|
  {
    if q != [] {
      var k := |q| - 1;
      var t := q[..k];
      forall i, j | 0 <= i < j < k ensures SlotsDiffer(t, i, j) {
        assert SlotsDiffer(q, i, j);
      }
      SlotsSize(t, n);
      SlotsSnoc(q, k);
    }
  }

  lemma {:induction false} SlotsSnoc(q: seq<Ev>, k: nat)
    requires |q| == k + 1 && forall i :: 0 <= i < k ==> SlotsDiffer(q, i, k)
    ensures Slots(q) == Slots(q[..k]) + {q[k].slot} && q[k].slot !in Slots(q[..k])
  {
    forall i | 0 <= i < k ensures q[..k][i].slot != q[k].slot {
      assert SlotsDiffer(q, i, k);
    }
    forall x | x in Slots(q) ensures x in Slots(q[..k]) + {q[k].slot} {
      var i :| 0 <= i < |q| && q[i].slot == x;
      assert i < k ==> q[..k][i].slot == x;
    }
    forall x | x in Slots(q[..k]) ensures x in Slots(q) {
      var i :| 0 <= i < k && q[..k][i].slot == x;
      assert q[i].slot == x;
    }
  }

  function Below(n: nat): (r: set<nat>)
    ensures |r| == n && forall x: nat :: x in r <==> x < n
  {
    if n == 0 then {} else Below(n - 1) + {n - 1}
  }

  /** Starting an event fails, when tracing is on, exactly when every slot holds a queued event. */
  lemma {:induction false} AllocationFailsOnlyWhenFull(q: seq<Ev>, n: nat)
    requires DistinctSlots(q, n)
    ensures LowestFree(q, 0, n) == n + 1 <==> |q| == n
    ensures |q| <= n
  {
    SlotsSize(q, n);
    var slots, all := Slots(q), Below(n);
    assert slots <= all;
    Subset(slots, all);
    if LowestFree(q, 0, n) == n + 1 {
      forall x | x in all ensures x in slots {
        assert Uses(q, x);
        var e :| e in q && e.slot == x;
        var i :| 0 <= i < |q| && q[i] == e;
      }
      assert slots == all;
    } else {
      var r := LowestFree(q, 0, n);
      assert forall i :: 0 <= i < |q| ==> q[i] in q;
      assert r !in slots;
      Subset(slots, all - {r});
    }
  }

  lemma {:induction false} Subset(a: set<nat>, b: set<nat>)
    requires a <= b
    ensures |a| <= |b|
  {
    assert b == a + (b - a);
  }

  // ----- what is recorded -----

  /** A start as its caller made it. */
  datatype Report = Report(name: nat, task: nat, start: U32)

  function Reports(evs: seq<Ev>): (r: seq<Report>)
    ensures |r| == |evs| && forall i :: 0 <= i < |r| ==> r[i] == Report(evs[i].name, evs[i].task, evs[i].start)
  {
    seq(|evs|, i requires 0 <= i < |evs| => Report(evs[i].name, evs[i].task, evs[i].start))
  }

  /** Whether tracing is on after the events. */
  function Enabled(on: bool, evs: seq<Event>): (r: bool)
    decreases |evs|
  {
    if evs == [] then on else Enabled(if evs[0].OnEnable? then evs[0].on else on, evs[1..])
  }

  /** The starts that are made while tracing is on and a slot is free, as the events have them. */
  function Accepted(s: State, n: nat, on: bool, evs: seq<Event>): (r: seq<Report>)
    decreases |evs|
  {
    if evs == [] then []
    else AcceptedNow(s, n, on, evs[0]) + Accepted(Step(s, n, evs[0]), n, if evs[0].OnEnable? then evs[0].on else on, evs[1..])
  }

  lemma {:induction false} StartRecords(s: State, n: nat, name: nat, task: nat, now: U32)
    requires Inv(s, n)
    ensures Reports(Start(s, n, name, task, now).started) ==
      Reports(s.started) + if s.enabled && |s.queue| < n then [Report(name, task, now)] else []
  {
    AllocationFailsOnlyWhenFull(s.queue, n);
  }

  lemma {:induction false} PrintLeaves(s: State)
    ensures Print(s).started == s.started && Print(s).enabled == s.enabled
  {
    var k := PrintTakesEndedPrefix(s);
  }

  /** One event's accepted start, if it is one. */
  function AcceptedNow(s: State, n: nat, on: bool, ev: Event): (r: seq<Report>) {
    if ev.OnStart? && on && |s.queue| < n then [Report(ev.name, ev.task, ev.now)] else []
  }

  lemma {:induction false} StepRecords(s: State, n: nat, ev: Event)
    requires Inv(s, n)
    ensures Step(s, n, ev).enabled == if ev.OnEnable? then ev.on else s.enabled
    ensures Reports(Step(s, n, ev).started) == Reports(s.started) + AcceptedNow(s, n, s.enabled, ev)
  {
    PrintLeaves(s);
    match ev {
      case OnStart(name, task, now) => StartRecords(s, n, name, task, now);
      case _ => assert Reports(s.started) + [] == Reports(s.started);
    }
  }

  /** Over any run, what counts as started is exactly the starts of the run that came while tracing was on and a slot
      was free, with their names, tasks and times. */
  lemma {:induction false} RunRecords(s: State, n: nat, evs: seq<Event>)
    requires Inv(s, n)
    ensures Run(s, n, evs).enabled == Enabled(s.enabled, evs)
    ensures Reports(Run(s, n, evs).started) == Reports(s.started) + Accepted(s, n, s.enabled, evs)
    decreases |evs|
  {
    if evs != [] {
      var m := Step(s, n, evs[0]);
      StepKeeps(s, n, evs[0]);
      StepRecords(s, n, evs[0]);
      RunRecords(m, n, evs[1..]);
    }
  }

  /** An end stamps the event in that slot with the time, if it has that name and is not ended, and no other. */
  lemma {:induction false} EndStampsOne(s: State, n: nat, id: nat, name: nat, now: U32, k: nat)
    requires Inv(s, n) && s.enabled && k < |s.queue|
    ensures var e, r := s.queue[k], End(s, id, name, now);
      && |r.queue| == |s.queue|
      && r.queue[k] == if e.slot == id && e.name == name && e.end == 0 then Ev(id, name, e.task, e.start, now) else e
  {
    SetEndAt(s.queue, id, name, now, k);
  }

  /** A start and its end, whatever was queued before: the event is queued last, with both times. */
  lemma {:induction false} StartThenEnd(s: State, n: nat, name: nat, task: nat, start: U32, end: U32)
    requires Inv(s, n) && s.enabled && |s.queue| < n
    ensures var slot := LowestFree(s.queue, 0, n);
      Run(s, n, [OnStart(name, task, start), OnEnd(slot, name, end)]).queue == s.queue + [Ev(slot, name, task, start, end)]
  {
    var slot := LowestFree(s.queue, 0, n);
    var m := Start(s, n, name, task, start);
    AllocationFailsOnlyWhenFull(s.queue, n);
    StartKeeps(s, n, name, task, start);
    var evs := [OnStart(name, task, start), OnEnd(slot, name, end)];
    assert evs[1..] == [OnEnd(slot, name, end)] && evs[1..][1..] == [];
    var r := End(m, slot, name, end);
    assert Run(s, n, evs) == Run(r, n, []);
    forall k | 0 <= k < |m.queue| ensures r.queue[k] == (s.queue + [Ev(slot, name, task, start, end)])[k] {
      EndStampsOne(m, n, slot, name, end, k);
      if k < |s.queue| {
        assert s.queue[k] in s.queue;
      }
    }
    assert |r.queue| == |m.queue|;
  }
}
