/**
  What the software timers are for: a stable priority queue over unbounded absolute time.
  Nothing here knows about 32-bit tick counts, wrap-around or linked lists; `SwTimer`
  shows that the two-list code does exactly this.
 */
module TimerQueue {
  import opened Words

  type Id = nat

  /** One start of a timer: `due` is its absolute deadline, `ord` how many starts preceded it. */
  datatype Entry = Entry(id: Id, due: nat, ord: nat)

  /** How a start ended: its function ran, or a cancel removed it. */
  datatype Fate = Ran(entry: Entry, at: nat) | Cancelled(entry: Entry, at: nat)

  /** What a timer function does to the timers before it returns. */
  datatype Op = Start(id: Id, ticks: U32) | Cancel(id: Id)

  /** A timer function's behaviour in one invocation: its calls, then its returned delay
      (already converted to ticks by nl_time_ms_to_delay_time_native; None is a returned 0). */
  datatype Script = Script(ops: seq<Op>, restart: Option<U32>)

  datatype State = State(
    now: nat,               // ticks since boot
    queue: seq<Entry>,      // pending timers, next to run first
    started: seq<Entry>,    // every start so far
    fates: seq<Fate>,       // every run and every successful cancel so far
    wakes: seq<nat>,        // the times at which sleeps ended
    halted: bool)           // the assert against starting an active timer has failed

  const Boot := State(0, [], [], [], [], false)

  // ----- the queue -----

  predicate Before(a: Entry, b: Entry) {
    a.due < b.due || (a.due == b.due && a.ord < b.ord)
  }

  /** Every entry of q is another timer's and comes after a. */
  predicate AllAfter(a: Entry, q: seq<Entry>) {
    forall x :: x in q ==> Before(a, x) && a.id != x.id
  }

  /** Strictly sorted by deadline, ties by start order, and no timer twice. */
  predicate Ordered(q: seq<Entry>) {
    q == [] || (AllAfter(q[0], q[1..]) && Ordered(q[1..]))
  }

  predicate Active(q: seq<Entry>, id: Id) {
    exists e :: e in q && e.id == id
  }

  function Insert(q: seq<Entry>, e: Entry): (r: seq<Entry>) {
    if q == [] || e.due < q[0].due then [e] + q else [q[0]] + Insert(q[1..], e)
  }

  function Remove(q: seq<Entry>, id: Id): (r: seq<Entry>) {
    if q == [] then [] else if q[0].id == id then q[1..] else [q[0]] + Remove(q[1..], id)
  }

  /** The entry of an active timer. */
  function Pending(q: seq<Entry>, id: Id): (e: Entry)
    requires Active(q, id)
    ensures e in q && e.id == id
  {
    if q[0].id == id then q[0] else Pending(q[1..], id)
  }

  // ----- operations -----

  function DelayOf(ticks: U32): (r: nat)
    ensures 1 <= r < 0x1_0000_0000
  {
    if ticks == 0 then 1 else ticks
  }

  function StartTimer(s: State, id: Id, ticks: U32): (r: State) {
    if s.halted then s
    else if Active(s.queue, id) then s.(halted := true)
    else
      var e := Entry(id, s.now + DelayOf(ticks), |s.started|);
      s.(queue := Insert(s.queue, e), started := s.started + [e])
  }

  function CancelTimer(s: State, id: Id): (r: State) {
    if s.halted || !Active(s.queue, id) then s
    else s.(queue := Remove(s.queue, id), fates := s.fates + [Cancelled(Pending(s.queue, id), s.now)])
  }

  function DoOp(s: State, op: Op): (r: State) {
    match op
    case Start(id, ticks) => StartTimer(s, id, ticks)
    case Cancel(id) => CancelTimer(s, id)
  }

  function DoOps(s: State, ops: seq<Op>): (r: State)
    decreases |ops|
  {
    if ops == [] then s else DoOps(DoOp(s, ops[0]), ops[1..])
  }

  predicate HeadDue(s: State) {
    !s.halted && s.queue != [] && s.queue[0].due <= s.now
  }

  function PopHead(s: State): (r: State)
    requires HeadDue(s)
  {
    s.(queue := s.queue[1..], fates := s.fates + [Ran(s.queue[0], s.now)])
  }

  /** Runs the first timer: take it off the queue, do what its function does, restart it if asked. */
  function RunHead(s: State, script: Script): (r: State)
    requires HeadDue(s)
  {
    Restart(DoOps(PopHead(s), script.ops), s.queue[0].id, script.restart)
  }

  function Restart(s: State, id: Id, restart: Option<U32>): (r: State) {
    match restart
    case None => s
    case Some(c) => StartTimer(s, id, Sub32(c, 1))
  }

  /** The k-th timer function to run in a tick behaves as `scripts[k]`, or does nothing. */
  function NextScript(scripts: seq<Script>): Script {
    if scripts == [] then Script([], None) else scripts[0]
  }

  function RestOf(scripts: seq<Script>): seq<Script> {
    if scripts == [] then [] else scripts[1..]
  }

  /** How many pending timers are due. */
  function DueCount(q: seq<Entry>, now: nat): (r: nat) {
    if q == [] then 0 else (if q[0].due <= now then 1 else 0) + DueCount(q[1..], now)
  }

  function Drain(s: State, scripts: seq<Script>): (r: State)
    decreases DueCount(s.queue, s.now)
  {
    if HeadDue(s) then
      RunHeadProgress(s, NextScript(scripts));
      Drain(RunHead(s, NextScript(scripts)), RestOf(scripts))
    else s
  }

  function Tick(s: State, scripts: seq<Script>): (r: State) {
    if s.halted then s else Drain(s.(now := s.now + 1), scripts)
  }

  /** A sleep of n ticks keeps to the granted idle time and does not span a wrap of a 32-bit count. */
  predicate SleepAllowed(s: State, n: nat) {
    && !s.halted
    && (s.queue == [] || (s.now < s.queue[0].due && s.now + n <= s.queue[0].due))
    && SameEpoch(s.now, n)
  }

  predicate SameEpoch(now: nat, n: nat) {
    now / 0x1_0000_0000 == (now + n) / 0x1_0000_0000
  }

  function Sleep(s: State, n: nat): (r: State) {
    s.(now := s.now + n, wakes := s.wakes + [s.now + n])
  }

  // ----- the tick handler terminates -----

  lemma {:induction false} DueCountInsert(q: seq<Entry>, e: Entry, now: nat)
    requires e.due > now
    ensures DueCount(Insert(q, e), now) == DueCount(q, now)
  {
    if q == [] || e.due < q[0].due {
      assert ([e] + q)[1..] == q;
    } else {
      DueCountInsert(q[1..], e, now);
      assert ([q[0]] + Insert(q[1..], e))[1..] == Insert(q[1..], e);
    }
  }

  lemma {:induction false} DueCountRemove(q: seq<Entry>, id: Id, now: nat)
    ensures DueCount(Remove(q, id), now) <= DueCount(q, now)
  {
    if q != [] && q[0].id != id {
      DueCountRemove(q[1..], id, now);
      assert ([q[0]] + Remove(q[1..], id))[1..] == Remove(q[1..], id);
    }
  }

  lemma {:induction false} DoOpsProgress(s: State, ops: seq<Op>)
    ensures DoOps(s, ops).now == s.now
    ensures DueCount(DoOps(s, ops).queue, s.now) <= DueCount(s.queue, s.now)
    decreases |ops|
  {
    if ops != [] {
      match ops[0] {
        case Start(id, ticks) =>
          DueCountInsert(s.queue, Entry(id, s.now + DelayOf(ticks), |s.started|), s.now);
        case Cancel(id) =>
          DueCountRemove(s.queue, id, s.now);
      }
      DoOpsProgress(DoOp(s, ops[0]), ops[1..]);
    }
  }

  /** Whatever a timer function does, running it leaves fewer due timers than before. */
  lemma {:induction false} RunHeadProgress(s: State, script: Script)
    requires HeadDue(s)
    ensures RunHead(s, script).now == s.now
    ensures DueCount(RunHead(s, script).queue, s.now) < DueCount(s.queue, s.now)
  {
    DoOpsProgress(PopHead(s), script.ops);
    var r := DoOps(PopHead(s), script.ops);
    if script.restart.Some? {
      DueCountInsert(r.queue, Entry(s.queue[0].id, s.now + DelayOf(Sub32(script.restart.value, 1)), |r.started|), s.now);
    }
  }
}
