/**
  The software timer module itself: two singly linked lists sorted by a wrapping 32-bit target
  tick, updated in place. Every method is tied to the unbounded queue of `TimerQueue`: the
  current list followed by the overflow list is always that queue.
 */
module SwTimer {
  import opened Words
  import opened TimerQueue
  import opened TimerRuns

  class Timer {
    const index: Id               // which timer this is
    var delay: U32
    var next: Timer?

    constructor (index: Id)
      ensures this.index == index && next == null
    {
      this.index := index;
      delay, next := 0, null;
    }
  }

  /** The target tick stored for deadline `due`, counted from the last wrap; late timers count as 0. */
  function TargetTick(due: nat, base: nat): (r: nat) {
    if due < base then 0 else due - base
  }

  /** The timers whose functions ran, in order. */
  function RanIds(fates: seq<Fate>): (r: seq<Id>) {
    if fates == [] then [] else
      var last := fates[|fates| - 1];
      RanIds(fates[..|fates| - 1]) + if last.Ran? then [last.entry.id] else []
  }

  lemma {:induction false} RanIdsSkipCancels(fates: seq<Fate>, n: nat)
    requires n <= |fates| && forall k :: n <= k < |fates| ==> fates[k].Cancelled?
    ensures RanIds(fates) == RanIds(fates[..n])
    decreases |fates|
  {
    if n == |fates| {
      assert fates[..n] == fates;
    } else {
      RanIdsSkipCancels(fates[..|fates| - 1], n);
      assert fates[..|fates| - 1][..n] == fates[..n];
    }
  }

  lemma {:induction false} OpsOnlyCancel(s: State, ops: seq<Op>)
    ensures NewFatesCancelled(s, DoOps(s, ops))
    decreases |ops|
  {
    if ops != [] {
      OpsOnlyCancel(DoOp(s, ops[0]), ops[1..]);
    }
  }

  predicate OpsBelow(ops: seq<Op>, n: nat) {
    forall k :: 0 <= k < |ops| ==> ops[k].id < n
  }

  predicate ScriptsBelow(scripts: seq<Script>, n: nat) {
    forall k :: 0 <= k < |scripts| ==> OpsBelow(scripts[k].ops, n)
  }

  predicate EventBelow(ev: Event, n: nat) {
    match ev
    case OnStart(id, _) => id < n
    case OnCancel(id) => id < n
    case OnTick(scripts) => ScriptsBelow(scripts, n)
    case OnSleep(_) => true
  }

  class Scheduler {
    const timers: seq<Timer>      // every timer object the callers own; a timer's id is its index
    const nsPerTick: nat

    var list: Timer?              // s_timer_list
    var overflow: Timer?          // s_timer_overflow_list
    var tick: U32                 // s_swtimer_tick_count
    var timeNs: U64               // s_system_time_ns
    var halted: bool              // the assert in nl_swtimer_insert_locked has failed

    ghost var cur: seq<Entry>     // what the current list holds
    ghost var ovf: seq<Entry>     // what the overflow list holds
    ghost var base: nat           // absolute time of the last wrap of the tick count
    ghost var nexts: seq<Timer?>  // every timer's next field
    ghost var delays: seq<U32>    // every timer's delay field

    ghost predicate Distinct() {
      forall i :: 0 <= i < |timers| ==> timers[i].index == i
    }

    /** The ghost copies `nexts` and `delays` are the fields of the timers. */
    ghost predicate Mirrored()
      reads this, timers
    {
      && |nexts| == |delays| == |timers|
      && (forall i :: 0 <= i < |timers| ==> timers[i].next == nexts[i])
      && (forall i :: 0 <= i < |timers| ==> timers[i].delay == delays[i])
    }

    ghost predicate Lists()
      reads this
    {
      && Half(timers, nexts, delays, list, cur, base)
      && Half(timers, nexts, delays, overflow, ovf, base + 0x1_0000_0000)
      && NotBefore(ovf, base + 0x1_0000_0000)
    }

    /** The two lists, one after the other, are the queue of `s`, and the tick count is its time. */
    ghost predicate Represents(s: State)
      reads this, timers
    {
      && Distinct() && Mirrored()
      && Lists()
      && s.queue == cur + ovf && DistinctIds(s.queue)
      && s.now == base + tick && s.halted == halted
    }

    /** The clocks agree: wraps of the tick count are whole, and nanoseconds follow the ticks. */
    ghost predicate ClockOk(s: State)
      reads this
    {
      ClockAt(base, s.now, nsPerTick, timeNs)
    }

    constructor (timers: seq<Timer>, nsPerTick: nat)
      requires forall i :: 0 <= i < |timers| ==> timers[i].index == i
      ensures Represents(Boot) && ClockOk(Boot)
      ensures this.timers == timers && this.nsPerTick == nsPerTick
    {
      this.timers := timers;
      this.nsPerTick := nsPerTick;
      list, overflow, tick, timeNs, halted := null, null, 0, 0, false;
      cur, ovf, base := [], [], 0;
      nexts := seq(|timers|, i requires 0 <= i < |timers| reads timers => timers[i].next);
      delays := seq(|timers|, i requires 0 <= i < |timers| reads timers => timers[i].delay);
    }

    // ----- searching -----

    method InList(head: Timer?, id: Id, ghost es: seq<Entry>) returns (found: bool)
      requires Distinct() && Mirrored() && Chain(timers, nexts, head, es) && id < |timers|
      ensures found == Active(es, id)
    {
      var p := head;
      ghost var k := 0;
      found := false;
      while p != null
        invariant 0 <= k <= |es|
        invariant p == At(timers, es, k)
        invariant forall i :: 0 <= i < k ==> es[i].id != id
        decreases |es| - k
      {
        if p == timers[id] {
          assert es[k].id == id;
          return true;
        }
        assert LinkAt(timers, nexts, es, k);
        p := p.next;
        k := k + 1;
      }
    }

    method IsActive(id: Id, ghost s: State) returns (active: bool)
      requires Represents(s) && id < |timers|
      ensures active == Active(s.queue, id)
    {
      ActiveSplit(cur, ovf, id);
      active := InList(list, id, cur);
      if !active {
        active := InList(overflow, id, ovf);
      }
    }

    // ----- inserting -----

    /** Walks to the first entry with a later target tick; `prev` is the entry before it. */
    method FindPlace(head: Timer?, timer: Timer, ghost es: seq<Entry>, ghost e: Entry, ghost b: nat)
      returns (prev: Timer?, q: Timer?, ghost p: nat)
      requires Mirrored() && Half(timers, nexts, delays, head, es, b)
      requires b <= e.due && timer.delay == e.due - b
      ensures IsPlace(es, e, p)
      ensures q == At(timers, es, p)
      ensures prev == if p == 0 then null else At(timers, es, p - 1)
    {
      prev, q, p := null, head, 0;
      while q != null
        invariant 0 <= p <= |es|
        invariant q == At(timers, es, p)
        invariant prev == if p == 0 then null else At(timers, es, p - 1)
        invariant forall i :: 0 <= i < p ==> es[i].due <= e.due
        decreases |es| - p
      {
        assert TimedAt(delays, es, p, b);
        if timer.delay < q.delay {
          break;
        }
        assert LinkAt(timers, nexts, es, p);
        prev, q := q, q.next;
        p := p + 1;
      }
    }

    method InsertInto(head: Timer?, id: Id, ghost es: seq<Entry>, ghost e: Entry, ghost b: nat)
      returns (newHead: Timer?, ghost p: nat)
      requires Distinct() && Mirrored() && Half(timers, nexts, delays, head, es, b) && DistinctIds(es)
      requires id == e.id < |timers| && !Active(es, id)
      requires b <= e.due < b + 0x1_0000_0000 && timers[id].delay == e.due - b
      modifies this`nexts, timers`next
      ensures Mirrored() && IsPlace(es, e, p)
      ensures Half(timers, nexts, delays, newHead, es[..p] + [e] + es[p..], b)
      ensures Same(old(nexts), nexts, es + [e])
    {
      var timer := timers[id];
      var prev, q;
      prev, q, p := FindPlace(head, timer, es, e, b);
      ChainInsert(timers, nexts, head, es, p, e);
      TimedInsert(delays, es, p, e, b);
      if prev == null {
        newHead := timer;
      } else {
        newHead := head;
        prev.next := timer;
        nexts := nexts[es[p - 1].id := timer];
      }
      timer.next := q;
      nexts := nexts[id := q];
      assert (es + [e])[|es|] == e;
      assert p > 0 ==> (es + [e])[p - 1] == es[p - 1];
    }

    method LinkCurrent(id: Id, ghost e: Entry) returns (ghost p: nat)
      requires Distinct() && Mirrored() && Lists() && Apart(ovf, cur) && DistinctIds(cur)
      requires id == e.id < |timers| && !Active(cur, id) && !Active(ovf, id)
      requires base <= e.due < base + 0x1_0000_0000 && timers[id].delay == e.due - base
      modifies this`list, this`cur, this`nexts, timers`next
      ensures Mirrored() && Lists()
      ensures IsPlace(old(cur), e, p) && cur == old(cur)[..p] + [e] + old(cur)[p..]
    {
      list, p := InsertInto(list, id, cur, e, base);
      ChainApart(timers, old(nexts), nexts, overflow, ovf, cur, e);
      cur := cur[..p] + [e] + cur[p..];
    }

    method LinkOverflow(id: Id, ghost e: Entry) returns (ghost p: nat)
      requires Distinct() && Mirrored() && Lists() && Apart(cur, ovf) && DistinctIds(ovf)
      requires id == e.id < |timers| && !Active(cur, id) && !Active(ovf, id)
      requires base + 0x1_0000_0000 <= e.due < base + 0x2_0000_0000
      requires timers[id].delay == e.due - (base + 0x1_0000_0000)
      modifies this`overflow, this`ovf, this`nexts, timers`next
      ensures Mirrored() && Lists()
      ensures IsPlace(old(ovf), e, p) && ovf == old(ovf)[..p] + [e] + old(ovf)[p..]
    {
      overflow, p := InsertInto(overflow, id, ovf, e, base + 0x1_0000_0000);
      ChainApart(timers, old(nexts), nexts, list, cur, ovf, e);
      NotBeforeInsert(ovf, p, e, base + 0x1_0000_0000);
      ovf := ovf[..p] + [e] + ovf[p..];
    }

    method SetDelay(id: Id, target: U32, ghost s: State)
      requires Represents(s) && id < |timers| && !Active(s.queue, id)
      modifies this`delays, timers`delay
      ensures Represents(s) && timers[id].delay == target
    {
      ActiveSplit(cur, ovf, id);
      TimedFrame(delays, cur, base, id, target);
      TimedFrame(delays, ovf, base + 0x1_0000_0000, id, target);
      timers[id].delay := target;
      delays := delays[id := target];
    }

    /** nl_swtimer_insert_locked; also nl_swtimer_start, whose delay arrives converted to ticks. The target is the tick
        count plus the delay, at least one, on 32 bits; starting an active timer trips the assert. */
    method Start(id: Id, ticks: U32, ghost s: State)
      requires Represents(s) && id < |timers|
      modifies this`list, this`overflow, this`halted, this`cur, this`ovf, this`nexts, this`delays, timers
      ensures Represents(StartTimer(s, id, ticks))
      ensures halted == (old(halted) || Active(s.queue, id))
      ensures !halted ==> var target := tick + (if ticks == 0 then 1 else ticks);
        timers[id].delay == if target < 0x1_0000_0000 then target else target - 0x1_0000_0000
    {
      if halted {
        return;
      }
      var active := IsActive(id, s);
      if active {
        halted := true;
        return;
      }
      ghost var e := Entry(id, s.now + DelayOf(ticks), |s.started|);
      var target := Add32(tick, if ticks == 0 then 1 else ticks);
      StartInactive(s, e, ticks);
      SetDelay(id, target, s);
      if target > tick {
        InsertCurrent(id, e, s);
      } else {
        InsertOverflow(id, e, s);
      }
    }

    method InsertCurrent(id: Id, ghost e: Entry, ghost s: State)
      requires Represents(s) && !Active(s.queue, id) && id == e.id < |timers|
      requires base <= e.due < base + 0x1_0000_0000 && timers[id].delay == e.due - base
      modifies this`list, this`cur, this`nexts, timers`next
      ensures Represents(Added(s, e))
    {
      ActiveSplit(cur, ovf, id);
      DisjointIds(cur, ovf);
      ghost var p := LinkCurrent(id, e);
      LateBy(ovf, base + 0x1_0000_0000, e.due + 1);
      AddedLeft(s, old(cur), ovf, e, p);
    }

    method InsertOverflow(id: Id, ghost e: Entry, ghost s: State)
      requires Represents(s) && !Active(s.queue, id) && id == e.id < |timers|
      requires base + 0x1_0000_0000 <= e.due < base + 0x2_0000_0000
      requires timers[id].delay == e.due - (base + 0x1_0000_0000)
      modifies this`overflow, this`ovf, this`nexts, timers`next
      ensures Represents(Added(s, e))
    {
      ActiveSplit(cur, ovf, id);
      DisjointIds(cur, ovf);
      ghost var p := LinkOverflow(id, e);
      TimedBelow(delays, cur, base, e);
      AddedRight(s, cur, old(ovf), e, p);
    }

    // ----- removing -----

    method RemoveFrom(head: Timer?, id: Id, ghost es: seq<Entry>)
      returns (found: bool, newHead: Timer?, ghost p: nat)
      requires Distinct() && Mirrored() && Chain(timers, nexts, head, es) && DistinctIds(es) && id < |timers|
      modifies this`nexts, timers`next
      ensures Mirrored() && found == Active(es, id)
      ensures !found ==> newHead == head && nexts == old(nexts)
      ensures found ==> p < |es| && es[p].id == id && Chain(timers, nexts, newHead, Cut(es, p))
      ensures Same(old(nexts), nexts, es)
    {
      var prev: Timer?, q := null, head;
      p := 0;
      while q != null
        invariant 0 <= p <= |es|
        invariant q == At(timers, es, p)
        invariant prev == if p == 0 then null else At(timers, es, p - 1)
        invariant forall i :: 0 <= i < p ==> es[i].id != id
        decreases |es| - p
      {
        assert LinkAt(timers, nexts, es, p);
        if q == timers[id] {
          assert es[p].id == id && es[p] in es;
          ChainCut(timers, nexts, head, es, p);
          if prev == null {
            newHead := q.next;
          } else {
            newHead := head;
            prev.next := q.next;
            assert es[p - 1] in es;
            nexts := nexts[es[p - 1].id := q.next];
          }
          return true, newHead, p;
        }
        prev, q := q, q.next;
        p := p + 1;
      }
      return false, head, p;
    }

    method UnlinkCurrent(id: Id) returns (found: bool, ghost p: nat)
      requires Distinct() && Mirrored() && Lists() && Apart(ovf, cur) && DistinctIds(cur) && id < |timers|
      modifies this`list, this`cur, this`nexts, timers`next
      ensures Mirrored() && Lists() && found == Active(old(cur), id)
      ensures if found then p < |old(cur)| && old(cur)[p].id == id && cur == Cut(old(cur), p) else cur == old(cur)
    {
      found, list, p := RemoveFrom(list, id, cur);
      ChainOther(timers, old(nexts), nexts, overflow, ovf, cur);
      if found {
        TimedCut(delays, cur, p, base);
        cur := Cut(cur, p);
      }
    }

    method UnlinkOverflow(id: Id) returns (found: bool, ghost p: nat)
      requires Distinct() && Mirrored() && Lists() && Apart(cur, ovf) && DistinctIds(ovf) && id < |timers|
      modifies this`overflow, this`ovf, this`nexts, timers`next
      ensures Mirrored() && Lists() && found == Active(old(ovf), id)
      ensures if found then p < |old(ovf)| && old(ovf)[p].id == id && ovf == Cut(old(ovf), p) else ovf == old(ovf)
    {
      found, overflow, p := RemoveFrom(overflow, id, ovf);
      ChainOther(timers, old(nexts), nexts, list, cur, ovf);
      if found {
        TimedCut(delays, ovf, p, base + 0x1_0000_0000);
        LateCut(ovf, p, base + 0x1_0000_0000);
        ovf := Cut(ovf, p);
      }
    }

    method CancelCurrent(id: Id, ghost s: State) returns (found: bool)
      requires Represents(s) && id < |timers| && !halted
      modifies this`list, this`cur, this`nexts, timers`next
      ensures found == Active(old(cur), id)
      ensures Represents(if found then CancelTimer(s, id) else s)
    {
      DisjointIds(cur, ovf);
      ghost var p;
      found, p := UnlinkCurrent(id);
      if found {
        CancelLeft(s, old(cur), ovf, p, id);
      }
    }

    method CancelOverflow(id: Id, ghost s: State) returns (found: bool)
      requires Represents(s) && id < |timers| && !halted
      modifies this`overflow, this`ovf, this`nexts, timers`next
      ensures found == Active(old(ovf), id)
      ensures Represents(if found then CancelTimer(s, id) else s)
    {
      DisjointIds(cur, ovf);
      ghost var p;
      found, p := UnlinkOverflow(id);
      if found {
        CancelRight(s, cur, old(ovf), p, id);
      }
    }

    /** nl_swtimer_cancel. */
    method Cancel(id: Id, ghost s: State) returns (result: bool)
      requires Represents(s) && id < |timers|
      modifies this`list, this`overflow, this`cur, this`ovf, this`nexts, timers`next
      ensures Represents(CancelTimer(s, id))
      ensures result == (!s.halted && Active(s.queue, id))
    {
      if halted {
        return false;
      }
      ActiveSplit(cur, ovf, id);
      result := CancelCurrent(id, s);
      if !result {
        result := CancelOverflow(id, s);
      }
    }

    // ----- the tick -----

    /** Zeroes the target ticks of the current list; `last` is its last timer. */
    method ZeroDelays() returns (last: Timer?)
      requires Distinct() && Mirrored() && Chain(timers, nexts, list, cur)
      modifies this`delays, timers`delay
      ensures Mirrored()
      ensures last == if cur == [] then null else At(timers, cur, |cur| - 1)
      ensures forall i :: 0 <= i < |cur| ==> delays[cur[i].id] == 0
      ensures forall j :: 0 <= j < |timers| && !Active(cur, j) ==> delays[j] == old(delays)[j]
    {
      last := null;
      var p := list;
      ghost var k := 0;
      while p != null
        invariant 0 <= k <= |cur|
        invariant p == At(timers, cur, k)
        invariant last == if k == 0 then null else At(timers, cur, k - 1)
        invariant Mirrored()
        invariant forall i :: 0 <= i < k ==> delays[cur[i].id] == 0
        invariant forall j :: 0 <= j < |timers| && !Active(cur, j) ==> delays[j] == old(delays)[j]
        decreases |cur| - k
      {
        assert LinkAt(timers, nexts, cur, k);
        assert cur[k] in cur;
        p.delay := 0;
        delays := delays[cur[k].id := 0];
        last, p := p, p.next;
        k := k + 1;
      }
    }

    /** Makes every timer of the current list late, counted from the wrap. */
    method ZeroForMerge() returns (last: Timer?)
      requires Distinct() && Mirrored() && Lists() && Apart(cur, ovf)
      modifies this`delays, timers`delay
      ensures Mirrored() && Timed(delays, cur + ovf, base + 0x1_0000_0000)
      ensures last == if cur == [] then null else At(timers, cur, |cur| - 1)
    {
      last := ZeroDelays();
      TimedMerge(old(delays), delays, cur, ovf, base);
    }

    /** Appends the overflow list to the current list, whose last timer is `last`. */
    method Join(last: Timer?)
      requires Distinct() && Mirrored() && Apart(cur, ovf) && DistinctIds(cur)
      requires Chain(timers, nexts, list, cur) && Chain(timers, nexts, overflow, ovf)
      requires last == if cur == [] then null else At(timers, cur, |cur| - 1)
      modifies this`list, this`overflow, this`nexts, timers`next
      ensures Mirrored() && Chain(timers, nexts, list, cur + ovf) && overflow == null
    {
      ChainJoin(timers, nexts, list, overflow, cur, ovf);
      if last == null {
        list := overflow;
      } else {
        last.next := overflow;
        nexts := nexts[cur[|cur| - 1].id := overflow];
      }
      overflow := null;
    }

    /** The tick count has just wrapped: everything in the current list is late, and the overflow
        list joins it. */
    method Merge()
      requires Distinct() && Mirrored() && Lists() && DistinctIds(cur + ovf)
      modifies this`list, this`overflow, this`cur, this`ovf, this`base, this`nexts, this`delays, timers
      ensures Mirrored() && Lists()
      ensures cur == old(cur + ovf) && ovf == [] && base == old(base) + 0x1_0000_0000
    {
      DisjointIds(cur, ovf);
      var last := ZeroForMerge();
      Join(last);
      HalfEmpty(timers, nexts, delays, base + 0x2_0000_0000);
      assert Half(timers, nexts, delays, list, cur + ovf, base + 0x1_0000_0000);
      Relabel(cur + ovf, [], base + 0x1_0000_0000);
    }

    /** Renames what the lists hold. */
    ghost method Relabel(cur': seq<Entry>, ovf': seq<Entry>, base': nat)
      requires Mirrored() && NotBefore(ovf', base' + 0x1_0000_0000)
      requires Half(timers, nexts, delays, list, cur', base')
      requires Half(timers, nexts, delays, overflow, ovf', base' + 0x1_0000_0000)
      modifies this`cur, this`ovf, this`base
      ensures Mirrored() && Lists() && cur == cur' && ovf == ovf' && base == base'
    {
      cur, ovf, base := cur', ovf', base';
    }

    method PerformOps(ops: seq<Op>, ghost s: State)
      requires Represents(s) && OpsBelow(ops, |timers|)
      modifies this`list, this`overflow, this`halted, this`cur, this`ovf, this`nexts, this`delays, timers
      ensures Represents(DoOps(s, ops))
    {
      ghost var m := s;
      for k := 0 to |ops|
        invariant Represents(m) && DoOps(m, ops[k..]) == DoOps(s, ops)
      {
        assert ops[k..][0] == ops[k] && ops[k..][1..] == ops[k + 1..];
        match ops[k] {
          case Start(id, ticks) => Start(id, ticks, m);
          case Cancel(id) => var _ := Cancel(id, m);
        }
        m := DoOp(m, ops[k]);
      }
    }

    method UnlinkFirst() returns (timer: Timer)
      requires Distinct() && Mirrored() && Lists() && list != null
      modifies this`list, this`cur
      ensures Lists() && old(cur) != [] && cur == Cut(old(cur), 0)
      ensures timer.index == old(cur)[0].id < |timers|
    {
      HalfTail(timers, nexts, delays, list, cur, base);
      timer := list;
      list := timer.next;
      cur := Cut(cur, 0);
    }

    /** Takes the first timer off the current list. */
    method TakeFirst(ghost s: State) returns (timer: Timer)
      requires Represents(s) && !halted && list != null && list.delay <= tick
      modifies this`list, this`cur
      ensures HeadDue(s) && Represents(PopHead(s))
      ensures timer.index == s.queue[0].id < |timers|
    {
      assert TimedAt(delays, cur, 0, base);
      assert HeadDue(s);
      PopCut(s, cur, ovf);
      timer := UnlinkFirst();
    }

    /** Runs the first timer's function, which behaves as `script`. */
    method RunFirst(script: Script, ghost s: State) returns (id: Id)
      requires Represents(s) && !halted && list != null && list.delay <= tick
      requires OpsBelow(script.ops, |timers|)
      modifies this`list, this`overflow, this`halted, this`cur, this`ovf, this`nexts, this`delays, timers
      ensures HeadDue(s) && id == s.queue[0].id && Represents(RunHead(s, script))
    {
      var timer := TakeFirst(s);
      id := timer.index;
      PerformOps(script.ops, PopHead(s));
      if script.restart.Some? {
        Start(id, Sub32(script.restart.value, 1), DoOps(PopHead(s), script.ops));
      }
    }

    /** Nothing is due any more: the current list is empty, or its first target is in the future. */
    lemma {:induction false} NothingDue(s: State)
      requires Represents(s)
      requires halted || list == null || list.delay > tick
      ensures !HeadDue(s)
    {
      if !halted {
        if cur != [] {
          assert TimedAt(delays, cur, 0, base);
        } else if ovf != [] {
          assert LateAt(ovf, 0, base + 0x1_0000_0000);
        }
      }
    }

    /** Counts the tick and, if the count wrapped, merges the lists. */
    method Advance(ghost s: State)
      requires Represents(s) && !halted
      modifies this`tick, this`timeNs, this`list, this`overflow, this`cur, this`ovf, this`base, this`nexts, this`delays, timers
      ensures Represents(s.(now := s.now + 1)) && tick == Add32(old(tick), 1)
      ensures base == old(base) || base == old(base) + 0x1_0000_0000
      ensures timeNs == (old(timeNs) + nsPerTick) % 0x1_0000_0000_0000_0000
    {
      var lastTick := tick;
      tick := Add32(tick, 1);
      timeNs := (timeNs + nsPerTick) % 0x1_0000_0000_0000_0000;
      if tick < lastTick {
        Merge();
        assert cur + ovf == cur;
      }
    }

    /** Runs the first timer with the next script. */
    method RunNext(scripts: seq<Script>, ghost s: State) returns (id: Id)
      requires Represents(s) && !halted && list != null && list.delay <= tick && ScriptsBelow(scripts, |timers|)
      modifies this`list, this`overflow, this`halted, this`cur, this`ovf, this`nexts, this`delays, timers
      ensures HeadDue(s) && ScriptsBelow(RestOf(scripts), |timers|)
      ensures var r := RunHead(s, NextScript(scripts));
        && Represents(r) && r.now == s.now && DueCount(r.queue, s.now) < DueCount(s.queue, s.now)
        && Drain(s, scripts) == Drain(r, RestOf(scripts)) && RanIds(r.fates) == RanIds(s.fates) + [id]
    {
      var script := NextScript(scripts);
      id := RunFirst(script, s);
      DrainStep(s, scripts);
      RunHeadRan(s, script);
    }

    /** Runs timers while the first one is due. */
    method RunDue(scripts: seq<Script>, ghost s: State) returns (ran: seq<Id>)
      requires Represents(s) && ScriptsBelow(scripts, |timers|)
      modifies this`list, this`overflow, this`halted, this`cur, this`ovf, this`nexts, this`delays, timers
      ensures Represents(Drain(s, scripts))
      ensures RanIds(Drain(s, scripts).fates) == RanIds(s.fates) + ran
    {
      ran := [];
      ghost var m := s;
      var rest := scripts;
      while !halted && list != null
        invariant Represents(m) && ScriptsBelow(rest, |timers|)
        invariant Drain(m, rest) == Drain(s, scripts)
        invariant RanIds(m.fates) == RanIds(s.fates) + ran
        decreases DueCount(m.queue, m.now)
      {
        if tick < list.delay {
          break;
        }
        var id := RunNext(rest, m);
        ran := ran + [id];
        m := RunHead(m, NextScript(rest));
        rest := RestOf(rest);
      }
      NothingDue(m);
    }

    /** nl_swtimer_rtos_tick_handler. The k-th timer function to run behaves as `scripts[k]`. */
    method TickHandler(scripts: seq<Script>, ghost s: State) returns (ran: seq<Id>)
      requires Represents(s) && ClockOk(s) && ScriptsBelow(scripts, |timers|)
      modifies this, timers
      ensures Represents(Tick(s, scripts)) && ClockOk(Tick(s, scripts))
      ensures !old(halted) ==> tick == Add32(old(tick), 1)
      ensures !old(halted) ==> timeNs == (old(timeNs) + nsPerTick) % 0x1_0000_0000_0000_0000
      ensures RanIds(Tick(s, scripts).fates) == RanIds(s.fates) + ran
    {
      if halted {
        return [];
      }
      CountTick(s);
      ghost var m := s.(now := s.now + 1);
      ran := RunDue(scripts, m);
      DrainNow(m, scripts);
      assert Tick(s, scripts) == Drain(m, scripts);
    }

    /** The tick is counted and the clock moved on. */
    method CountTick(ghost s: State)
      requires Represents(s) && ClockOk(s) && !halted
      modifies this`tick, this`timeNs, this`list, this`overflow, this`cur, this`ovf, this`base, this`nexts, this`delays, timers
      ensures Represents(s.(now := s.now + 1)) && ClockOk(s.(now := s.now + 1))
      ensures tick == Add32(old(tick), 1) && timeNs == (old(timeNs) + nsPerTick) % 0x1_0000_0000_0000_0000
    {
      Advance(s);
      ClockAdvances(old(base), base, s.now, 1, nsPerTick, old(timeNs), timeNs);
    }

    // ----- sleeping -----

    /** nl_swtimer_pre_sleep: refuses to sleep while a timer is waiting to run, and otherwise cuts the
        expected idle time to what the first timer of the current list allows. */
    method PreSleep(expected: U32, ghost s: State) returns (ok: bool, granted: U32)
      requires Represents(s) && ClockOk(s) && !halted
      ensures ok == (s.queue == [] || s.now < s.queue[0].due)
      ensures granted <= expected
      ensures ok ==> forall n: nat :: n <= granted && SameEpoch(s.now, n) ==> SleepAllowed(s, n)
      ensures ok && granted < expected ==> s.queue != [] && s.now + granted == s.queue[0].due
    {
      granted := expected;
      if list != null {
        assert TimedAt(delays, cur, 0, base);
        if list.delay > tick {
          if list.delay - tick < expected {
            granted := list.delay - tick;
          }
        } else {
          return false, granted;
        }
      } else if s.queue != [] {
        assert LateAt(ovf, 0, base + 0x1_0000_0000);
        forall n: nat | SameEpoch(s.now, n) ensures tick + n < 0x1_0000_0000 {
          NoWrap(base, tick, n);
        }
      }
      ok := true;
    }

    /** nl_swtimer_post_sleep, with the RTOS tick counts read before and after the sleep. */
    method PostSleep(before: U32, after: U32, ghost s: State)
      requires Represents(s) && ClockOk(s)
      requires before <= after && SleepAllowed(s, after - before)
      modifies this`tick, this`timeNs
      ensures Represents(Sleep(s, after - before)) && ClockOk(Sleep(s, after - before))
      ensures tick == old(tick) + (after - before)
      ensures timeNs == (old(timeNs) + (after - before) * nsPerTick) % 0x1_0000_0000_0000_0000
    {
      AddTime(after - before, s);
      SkipTicks(after - before, s);
    }

    /** Any run of starts, cancels, ticks and granted sleeps: at its end the two lists are still the
        queue that the same run of the unbounded machine reaches, and the clocks agree with it. */
    method Execute(evs: seq<Event>, ghost s: State)
      requires Represents(s) && ClockOk(s) && LegalRun(s, evs)
      requires forall k :: 0 <= k < |evs| ==> EventBelow(evs[k], |timers|)
      modifies this, timers
      ensures Represents(Run(s, evs)) && ClockOk(Run(s, evs))
    {
      ghost var m := s;
      for k := 0 to |evs|
        invariant Represents(m) && ClockOk(m)
        invariant LegalRun(m, evs[k..]) && Run(m, evs[k..]) == Run(s, evs)
      {
        assert evs[k..][0] == evs[k] && evs[k..][1..] == evs[k + 1..];
        Perform(evs[k], m);
        m := Step(m, evs[k]);
      }
    }

    method Perform(ev: Event, ghost s: State)
      requires Represents(s) && ClockOk(s) && Legal(s, ev) && EventBelow(ev, |timers|)
      modifies this, timers
      ensures Represents(Step(s, ev)) && ClockOk(Step(s, ev))
    {
      match ev {
        case OnStart(id, ticks) => Start(id, ticks, s);
        case OnCancel(id) => var _ := Cancel(id, s);
        case OnTick(scripts) => var _ := TickHandler(scripts, s);
        case OnSleep(n) =>
          NoWrap(base, tick, n);
          PostSleep(0, n, s);
      }
    }

    method AddTime(n: U32, ghost s: State)
      requires ClockOk(s)
      modifies this`timeNs
      ensures ClockOk(Sleep(s, n))
      ensures timeNs == (old(timeNs) + n * nsPerTick) % 0x1_0000_0000_0000_0000
    {
      timeNs := (timeNs + n * nsPerTick) % 0x1_0000_0000_0000_0000;
      ClockAdvances(base, base, s.now, n, nsPerTick, old(timeNs), timeNs);
    }

    method SkipTicks(n: U32, ghost s: State)
      requires Represents(s) && base % 0x1_0000_0000 == 0 && SleepAllowed(s, n)
      modifies this`tick
      ensures Represents(Sleep(s, n)) && tick == old(tick) + n
    {
      NoWrap(base, tick, n);
      tick := Add32(tick, n);
    }
  }

  lemma {:induction false} NoWrap(base: nat, tick: U32, n: nat)
    requires base % 0x1_0000_0000 == 0
    requires SameEpoch(base + tick, n)
    ensures tick + n < 0x1_0000_0000
  {
  }

  /** Wraps are whole, and nanoseconds follow the ticks until they exceed 64 bits. */
  ghost predicate ClockAt(base: nat, now: nat, ns: nat, timeNs: U64) {
    && base % 0x1_0000_0000 == 0
    && (now * ns < 0x1_0000_0000_0000_0000 ==> timeNs == now * ns)
  }

  lemma {:induction false} ClockAdvances(base: nat, base': nat, now: nat, n: nat, ns: nat, timeNs: U64, timeNs': U64)
    requires base' == base || base' == base + 0x1_0000_0000
    requires timeNs' == (timeNs + n * ns) % 0x1_0000_0000_0000_0000
    ensures ClockAt(base, now, ns, timeNs) ==> ClockAt(base', now + n, ns, timeNs')
  {
    assert (now + n) * ns == now * ns + n * ns;
    assert now * ns >= 0 && n * ns >= 0;
  }

  lemma {:induction false} DrainNow(s: State, scripts: seq<Script>)
    ensures Drain(s, scripts).now == s.now
    decreases DueCount(s.queue, s.now)
  {
    if HeadDue(s) {
      DrainStep(s, scripts);
      DrainNow(RunHead(s, NextScript(scripts)), RestOf(scripts));
    }
  }

  function Cut(es: seq<Entry>, p: nat): seq<Entry>
    requires p < |es|
  {
    es[..p] + es[p + 1..]
  }

  lemma {:induction false} ChainCut(timers: seq<Timer>, nexts: seq<Timer?>, head: Timer?, es: seq<Entry>, p: nat)
    requires Chain(timers, nexts, head, es) && DistinctIds(es) && p < |es|
    ensures Chain(timers,
                  if p == 0 then nexts else nexts[es[p - 1].id := nexts[es[p].id]],
                  if p == 0 then nexts[es[p].id] else head,
                  Cut(es, p))
  {
    var r := Cut(es, p);
    var n := if p == 0 then nexts else nexts[es[p - 1].id := nexts[es[p].id]];
    assert LinkAt(timers, nexts, es, p);
    forall k | 0 <= k < |r| ensures LinkAt(timers, n, r, k) {
      if k < p {
        assert r[k] == es[k] && LinkAt(timers, nexts, es, k);
        assert k < p - 1 ==> Differ(es, es, k, p - 1);
      } else {
        assert r[k] == es[k + 1] && LinkAt(timers, nexts, es, k + 1);
        assert p > 0 ==> Differ(es, es, p - 1, k + 1);
      }
    }
  }

  /** Changing the links of one list does not touch the other. */
  lemma {:induction false} ChainOther(timers: seq<Timer>, nexts: seq<Timer?>, nexts': seq<Timer?>,
                   head: Timer?, es: seq<Entry>, other: seq<Entry>)
    requires Chain(timers, nexts, head, es) && Same(nexts, nexts', other) && Apart(es, other)
    ensures Chain(timers, nexts', head, es)
  {
    forall k | 0 <= k < |es| ensures LinkAt(timers, nexts', es, k) {
      assert LinkAt(timers, nexts, es, k);
      forall x | x in other ensures x.id != es[k].id {
        var j :| 0 <= j < |other| && other[j] == x;
        assert Differ(es, other, k, j);
      }
    }
  }

  lemma {:induction false} TimedCut(delays: seq<U32>, es: seq<Entry>, p: nat, b: nat)
    requires Timed(delays, es, b) && p < |es|
    ensures Timed(delays, Cut(es, p), b)
  {
    forall k | 0 <= k < |es| - 1 ensures TimedAt(delays, Cut(es, p), k, b) {
      assert TimedAt(delays, es, if k < p then k else k + 1, b);
    }
  }

  lemma {:induction false} LateCut(es: seq<Entry>, p: nat, b: nat)
    requires NotBefore(es, b) && p < |es|
    ensures NotBefore(Cut(es, p), b)
  {
    forall k | 0 <= k < |es| - 1 ensures LateAt(Cut(es, p), k, b) {
      assert LateAt(es, if k < p then k else k + 1, b);
    }
  }

  lemma {:induction false} CancelAt(s: State, p: nat)
    requires DistinctIds(s.queue) && !s.halted && p < |s.queue|
    ensures Active(s.queue, s.queue[p].id) && CancelTimer(s, s.queue[p].id).queue == Cut(s.queue, p)
    ensures DistinctIds(Cut(s.queue, p))
  {
    forall i | 0 <= i < p ensures s.queue[i].id != s.queue[p].id {
      assert Differ(s.queue, s.queue, i, p);
    }
    RemoveAt(s.queue, p);
    DistinctCut(s.queue, p);
  }

  lemma {:induction false} CancelLeft(s: State, a: seq<Entry>, b: seq<Entry>, p: nat, id: Id)
    requires DistinctIds(s.queue) && !s.halted && s.queue == a + b && p < |a| && a[p].id == id
    ensures CancelTimer(s, id) == s.(queue := Cut(a, p) + b, fates := CancelTimer(s, id).fates)
    ensures DistinctIds(Cut(a, p) + b)
  {
    CancelAt(s, p);
    assert Cut(a + b, p) == Cut(a, p) + b;
  }

  lemma {:induction false} CancelRight(s: State, a: seq<Entry>, b: seq<Entry>, p: nat, id: Id)
    requires DistinctIds(s.queue) && !s.halted && s.queue == a + b && p < |b| && b[p].id == id
    ensures CancelTimer(s, id) == s.(queue := a + Cut(b, p), fates := CancelTimer(s, id).fates)
    ensures DistinctIds(a + Cut(b, p))
  {
    CancelAt(s, |a| + p);
    assert Cut(a + b, |a| + p) == a + Cut(b, p);
  }

  /** Where a new entry goes: after everything due no later than it. */
  predicate IsPlace(es: seq<Entry>, e: Entry, p: nat) {
    p <= |es| && (forall i :: 0 <= i < p ==> es[i].due <= e.due) && (p < |es| ==> e.due < es[p].due)
  }

  predicate LateAt(es: seq<Entry>, k: nat, b: nat)
    requires k < |es|
  {
    b <= es[k].due
  }

  predicate NotBefore(es: seq<Entry>, b: nat) {
    forall k :: 0 <= k < |es| ==> LateAt(es, k, b)
  }

  predicate TimedAt(delays: seq<U32>, es: seq<Entry>, k: nat, b: nat)
    requires k < |es|
  {
    && es[k].id < |delays|
    && es[k].due < b + 0x1_0000_0000
    && delays[es[k].id] == TargetTick(es[k].due, b)
  }

  /** The stored target ticks are those of the deadlines, counted from `b`. */
  predicate Timed(delays: seq<U32>, es: seq<Entry>, b: nat) {
    forall k :: 0 <= k < |es| ==> TimedAt(delays, es, k, b)
  }

  /** One of the two lists, linked and timed. */
  ghost predicate Half(timers: seq<Timer>, nexts: seq<Timer?>, delays: seq<U32>, head: Timer?, es: seq<Entry>, b: nat) {
    |delays| == |timers| && Chain(timers, nexts, head, es) && Timed(delays, es, b)
  }

  lemma {:induction false} HalfEmpty(timers: seq<Timer>, nexts: seq<Timer?>, delays: seq<U32>, b: nat)
    requires |timers| == |nexts| == |delays|
    ensures Half(timers, nexts, delays, null, [], b) && NotBefore([], b)
  {
  }

  lemma {:induction false} TimedFrame(delays: seq<U32>, es: seq<Entry>, b: nat, id: Id, target: U32)
    requires Timed(delays, es, b) && id < |delays| && !Active(es, id)
    ensures Timed(delays[id := target], es, b)
  {
    var d := delays[id := target];
    forall k | 0 <= k < |es| ensures TimedAt(d, es, k, b) {
      assert es[k] in es && TimedAt(delays, es, k, b);
    }
  }

  lemma {:induction false} TimedInsert(delays: seq<U32>, es: seq<Entry>, p: nat, e: Entry, b: nat)
    requires Timed(delays, es, b) && p <= |es|
    requires e.id < |delays| && b <= e.due < b + 0x1_0000_0000 && delays[e.id] == e.due - b
    ensures Timed(delays, es[..p] + [e] + es[p..], b)
  {
    var r := es[..p] + [e] + es[p..];
    forall k | 0 <= k < |r| ensures TimedAt(delays, r, k, b) {
      if k != p {
        assert TimedAt(delays, es, if k < p then k else k - 1, b);
      }
    }
  }

  function Added(s: State, e: Entry): State {
    s.(queue := Insert(s.queue, e), started := s.started + [e])
  }

  lemma {:induction false} StartInactive(s: State, e: Entry, ticks: U32)
    requires !s.halted && !Active(s.queue, e.id)
    requires e.due == s.now + DelayOf(ticks) && e.ord == |s.started|
    ensures StartTimer(s, e.id, ticks) == Added(s, e)
  {
  }

  lemma {:induction false} NotBeforeInsert(es: seq<Entry>, p: nat, e: Entry, b: nat)
    requires NotBefore(es, b) && p <= |es| && b <= e.due
    ensures NotBefore(es[..p] + [e] + es[p..], b)
  {
    var r := es[..p] + [e] + es[p..];
    forall k | 0 <= k < |r| ensures LateAt(r, k, b) {
      if k != p {
        assert LateAt(es, if k < p then k else k - 1, b);
      }
    }
  }

  lemma {:induction false} TimedBelow(delays: seq<U32>, es: seq<Entry>, b: nat, e: Entry)
    requires Timed(delays, es, b) && b + 0x1_0000_0000 <= e.due
    ensures forall i :: 0 <= i < |es| ==> es[i].due <= e.due
  {
    forall i | 0 <= i < |es| ensures es[i].due <= e.due {
      assert TimedAt(delays, es, i, b);
    }
  }

  lemma {:induction false} LateBy(es: seq<Entry>, b: nat, d: nat)
    requires NotBefore(es, b) && d <= b
    ensures NotBefore(es, d)
  {
    forall k | 0 <= k < |es| ensures LateAt(es, k, d) {
      assert LateAt(es, k, b);
    }
  }

  /** Changing the links of one list and of an inactive timer does not touch the other list. */
  lemma {:induction false} ChainApart(timers: seq<Timer>, nexts: seq<Timer?>, nexts': seq<Timer?>,
                   head: Timer?, es: seq<Entry>, other: seq<Entry>, e: Entry)
    requires Chain(timers, nexts, head, es) && Same(nexts, nexts', other + [e])
    requires Apart(es, other) && !Active(es, e.id)
    ensures Chain(timers, nexts', head, es)
  {
    forall k | 0 <= k < |es| ensures LinkAt(timers, nexts', es, k) {
      assert es[k] in es && LinkAt(timers, nexts, es, k);
      forall x | x in other + [e] ensures x.id != es[k].id {
        if x in other {
          var j :| 0 <= j < |other| && other[j] == x;
          assert Differ(es, other, k, j);
        }
      }
    }
  }

  /** `nexts` and `nexts'` differ at most at the timers of `es`. */
  ghost predicate Same(nexts: seq<Timer?>, nexts': seq<Timer?>, es: seq<Entry>) {
    |nexts| == |nexts'| && forall j :: 0 <= j < |nexts| && !Active(es, j) ==> nexts[j] == nexts'[j]
  }

  predicate Differ(a: seq<Entry>, b: seq<Entry>, i: nat, j: nat)
    requires i < |a| && j < |b|
  {
    a[i].id != b[j].id
  }

  /** No timer is in both lists. */
  predicate Apart(a: seq<Entry>, b: seq<Entry>) {
    forall i, j :: 0 <= i < |a| && 0 <= j < |b| ==> Differ(a, b, i, j)
  }

  predicate DistinctIds(es: seq<Entry>) {
    forall i, j :: 0 <= i < j < |es| ==> Differ(es, es, i, j)
  }

  lemma {:induction false} DisjointIds(a: seq<Entry>, b: seq<Entry>)
    requires DistinctIds(a + b)
    ensures Apart(a, b) && Apart(b, a) && DistinctIds(a) && DistinctIds(b)
  {
    forall i, j | 0 <= i < |a| && 0 <= j < |b| ensures Differ(a, b, i, j) && Differ(b, a, j, i) {
      assert Differ(a + b, a + b, i, |a| + j);
    }
    forall i, j | 0 <= i < j < |a| ensures Differ(a, a, i, j) {
      assert Differ(a + b, a + b, i, j);
    }
    forall i, j | 0 <= i < j < |b| ensures Differ(b, b, i, j) {
      assert Differ(a + b, a + b, |a| + i, |a| + j);
    }
  }

  lemma {:induction false} SplitLeft(a: seq<Entry>, b: seq<Entry>, e: Entry, p: nat)
    requires p <= |a|
    ensures (a + b)[..p] + [e] + (a + b)[p..] == (a[..p] + [e] + a[p..]) + b
  {
    assert (a + b)[..p] == a[..p] && (a + b)[p..] == a[p..] + b;
  }

  lemma {:induction false} SplitRight(a: seq<Entry>, b: seq<Entry>, e: Entry, p: nat)
    requires p <= |b|
    ensures (a + b)[..|a| + p] + [e] + (a + b)[|a| + p..] == a + (b[..p] + [e] + b[p..])
  {
    assert (a + b)[..|a| + p] == a + b[..p] && (a + b)[|a| + p..] == b[p..];
  }

  lemma {:induction false} DistinctInsert(es: seq<Entry>, e: Entry, p: nat)
    requires DistinctIds(es) && !Active(es, e.id) && p <= |es|
    ensures DistinctIds(es[..p] + [e] + es[p..])
  {
    var r := es[..p] + [e] + es[p..];
    forall i, j | 0 <= i < j < |r| ensures Differ(r, r, i, j) {
      var i', j' := if i < p then i else i - 1, if j < p then j else j - 1;
      if i == p {
        assert es[j'] in es;
      } else if j == p {
        assert es[i'] in es;
      } else {
        assert Differ(es, es, i', j');
      }
    }
  }

  lemma {:induction false} DistinctCut(es: seq<Entry>, p: nat)
    requires DistinctIds(es) && p < |es|
    ensures DistinctIds(Cut(es, p))
  {
    var r := Cut(es, p);
    forall i, j | 0 <= i < j < |r| ensures Differ(r, r, i, j) {
      assert Differ(es, es, if i < p then i else i + 1, if j < p then j else j + 1);
    }
  }

  lemma {:induction false} AddedLeft(s: State, a: seq<Entry>, b: seq<Entry>, e: Entry, p: nat)
    requires s.queue == a + b && DistinctIds(s.queue) && !Active(s.queue, e.id)
    requires IsPlace(a, e, p) && NotBefore(b, e.due + 1)
    ensures Added(s, e).queue == (a[..p] + [e] + a[p..]) + b && DistinctIds(Added(s, e).queue)
  {
    assert forall i :: 0 <= i < p ==> (a + b)[i] == a[i];
    assert p < |a + b| ==> (a + b)[p] == if p < |a| then a[p] else b[0];
    assert b != [] ==> LateAt(b, 0, e.due + 1);
    InsertAt(a + b, e, p);
    SplitLeft(a, b, e, p);
    DistinctInsert(a + b, e, p);
  }

  lemma {:induction false} PlaceRight(a: seq<Entry>, b: seq<Entry>, q: seq<Entry>, e: Entry, p: nat)
    requires q == a + b && IsPlace(b, e, p) && forall i :: 0 <= i < |a| ==> a[i].due <= e.due
    ensures IsPlace(q, e, |a| + p)
  {
    forall i | 0 <= i < |a| + p ensures q[i].due <= e.due {
      assert q[i] == if i < |a| then a[i] else b[i - |a|];
    }
    assert p < |b| ==> q[|a| + p] == b[p];
  }

  lemma {:induction false} InsertPlace(q: seq<Entry>, e: Entry, p: nat)
    requires IsPlace(q, e, p)
    ensures Insert(q, e) == q[..p] + [e] + q[p..]
  {
    InsertAt(q, e, p);
  }

  lemma {:induction false} AddedRight(s: State, a: seq<Entry>, b: seq<Entry>, e: Entry, p: nat)
    requires s.queue == a + b && DistinctIds(s.queue) && !Active(s.queue, e.id)
    requires IsPlace(b, e, p) && (forall i :: 0 <= i < |a| ==> a[i].due <= e.due)
    ensures Added(s, e).queue == a + (b[..p] + [e] + b[p..]) && DistinctIds(Added(s, e).queue)
  {
    var q, at := s.queue, |a| + p;
    var r := q[..at] + [e] + q[at..];
    PlaceRight(a, b, q, e, p);
    InsertPlace(q, e, at);
    DistinctInsert(q, e, at);
    SplitRight(a, b, e, p);
    assert Added(s, e).queue == r && r == a + (b[..p] + [e] + b[p..]);
  }

  /** The timer of the k-th entry, null past the end. */
  ghost function At(timers: seq<Timer>, es: seq<Entry>, k: nat): Timer?
    requires k < |es| ==> es[k].id < |timers|
  {
    if k < |es| then timers[es[k].id] else null
  }

  ghost predicate LinkAt(timers: seq<Timer>, nexts: seq<Timer?>, es: seq<Entry>, k: nat)
    requires k < |es| && InPool(es, |timers|) && |nexts| == |timers|
  {
    nexts[es[k].id] == At(timers, es, k + 1)
  }

  predicate InPool(es: seq<Entry>, n: nat) {
    forall k :: 0 <= k < |es| ==> es[k].id < n
  }

  /** `nexts` links the timers of `es`, in order, from `head` to null. */
  ghost predicate Chain(timers: seq<Timer>, nexts: seq<Timer?>, head: Timer?, es: seq<Entry>) {
    && |nexts| == |timers| && InPool(es, |timers|)
    && head == At(timers, es, 0)
    && forall k :: 0 <= k < |es| ==> LinkAt(timers, nexts, es, k)
  }

  lemma {:induction false} ChainInsert(timers: seq<Timer>, nexts: seq<Timer?>, head: Timer?, es: seq<Entry>, p: nat, e: Entry)
    requires Chain(timers, nexts, head, es) && DistinctIds(es)
    requires p <= |es| && e.id < |timers| && !Active(es, e.id)
    ensures Chain(timers,
                  (if p == 0 then nexts else nexts[es[p - 1].id := timers[e.id]])[e.id := At(timers, es, p)],
                  if p == 0 then timers[e.id] else head,
                  es[..p] + [e] + es[p..])
  {
    var r := es[..p] + [e] + es[p..];
    var n := (if p == 0 then nexts else nexts[es[p - 1].id := timers[e.id]])[e.id := At(timers, es, p)];
    forall k | 0 <= k < |r| ensures LinkAt(timers, n, r, k) {
      if k < p {
        assert r[k] == es[k] && es[k] in es && LinkAt(timers, nexts, es, k);
        assert k < p - 1 ==> Differ(es, es, k, p - 1);
      } else if k > p {
        assert r[k] == es[k - 1] && es[k - 1] in es && LinkAt(timers, nexts, es, k - 1);
        assert p > 0 ==> Differ(es, es, p - 1, k - 1);
      }
    }
  }

  lemma {:induction false} ActiveSplit(a: seq<Entry>, b: seq<Entry>, id: Id)
    ensures Active(a + b, id) <==> Active(a, id) || Active(b, id)
  {
    if Active(a, id) {
      var i :| 0 <= i < |a| && a[i].id == id;
      assert (a + b)[i].id == id;
    }
    if Active(b, id) {
      var i :| 0 <= i < |b| && b[i].id == id;
      assert (a + b)[|a| + i].id == id;
    }
  }

  lemma {:induction false} ChainTail(timers: seq<Timer>, nexts: seq<Timer?>, head: Timer?, es: seq<Entry>)
    requires Chain(timers, nexts, head, es) && es != []
    ensures Chain(timers, nexts, nexts[es[0].id], Cut(es, 0))
  {
    assert LinkAt(timers, nexts, es, 0);
    forall k | 0 <= k < |es| - 1 ensures LinkAt(timers, nexts, Cut(es, 0), k) {
      assert LinkAt(timers, nexts, es, k + 1);
    }
  }

  /** The first entry is the head's, and what follows it is a list again. */
  lemma {:induction false} HalfTail(timers: seq<Timer>, nexts: seq<Timer?>, delays: seq<U32>, head: Timer?, es: seq<Entry>, b: nat)
    requires Half(timers, nexts, delays, head, es, b) && head != null
    ensures es != [] && es[0].id < |timers| == |nexts| && head == timers[es[0].id]
    ensures Half(timers, nexts, delays, nexts[es[0].id], Cut(es, 0), b)
  {
    assert LinkAt(timers, nexts, es, 0);
    ChainTail(timers, nexts, head, es);
    TimedCut(delays, es, 0, b);
  }

  lemma {:induction false} ChainJoin(timers: seq<Timer>, nexts: seq<Timer?>, head: Timer?, head': Timer?, a: seq<Entry>, b: seq<Entry>)
    requires Chain(timers, nexts, head, a) && Chain(timers, nexts, head', b)
    requires Apart(a, b) && DistinctIds(a)
    ensures Chain(timers,
                  if a == [] then nexts else nexts[a[|a| - 1].id := head'],
                  if a == [] then head' else head,
                  a + b)
  {
    var n := if a == [] then nexts else nexts[a[|a| - 1].id := head'];
    forall k | 0 <= k < |a + b| ensures LinkAt(timers, n, a + b, k) {
      if k < |a| {
        assert LinkAt(timers, nexts, a, k);
        assert k < |a| - 1 ==> Differ(a, a, k, |a| - 1);
      } else {
        assert LinkAt(timers, nexts, b, k - |a|);
        assert a != [] ==> Differ(a, b, |a| - 1, k - |a|);
      }
    }
  }

  lemma {:induction false} TimedMerge(delays: seq<U32>, delays': seq<U32>, a: seq<Entry>, b: seq<Entry>, base: nat)
    requires Timed(delays, a, base) && Timed(delays, b, base + 0x1_0000_0000) && Apart(a, b)
    requires |delays| == |delays'|
    requires forall i :: 0 <= i < |a| ==> a[i].id < |delays'| && delays'[a[i].id] == 0
    requires forall j :: 0 <= j < |delays| && !Active(a, j) ==> delays'[j] == delays[j]
    ensures Timed(delays', a + b, base + 0x1_0000_0000)
  {
    var ab, b' := a + b, base + 0x1_0000_0000;
    forall k | 0 <= k < |ab| ensures TimedAt(delays', ab, k, b') {
      if k < |a| {
        assert TimedAt(delays, a, k, base);
      } else {
        assert TimedAt(delays, b, k - |a|, base + 0x1_0000_0000);
        forall x | x in a ensures x.id != b[k - |a|].id {
          var i :| 0 <= i < |a| && a[i] == x;
          assert Differ(a, b, i, k - |a|);
        }
      }
    }
  }

  lemma {:induction false} PopCut(s: State, a: seq<Entry>, b: seq<Entry>)
    requires HeadDue(s) && s.queue == a + b && a != [] && DistinctIds(s.queue)
    ensures PopHead(s).queue == Cut(a, 0) + b && DistinctIds(PopHead(s).queue) && s.queue[0] == a[0]
  {
    DistinctCut(s.queue, 0);
    assert s.queue[1..] == Cut(s.queue, 0);
  }

  lemma {:induction false} DrainStep(s: State, scripts: seq<Script>)
    requires HeadDue(s)
    ensures Drain(s, scripts) == Drain(RunHead(s, NextScript(scripts)), RestOf(scripts))
    ensures RunHead(s, NextScript(scripts)).now == s.now
    ensures DueCount(RunHead(s, NextScript(scripts)).queue, s.now) < DueCount(s.queue, s.now)
  {
    RunHeadProgress(s, NextScript(scripts));
  }

  /** Running the first timer appends it to the timers that have run. */
  lemma {:induction false} RunHeadRan(s: State, script: Script)
    requires HeadDue(s)
    ensures RanIds(RunHead(s, script).fates) == RanIds(s.fates) + [s.queue[0].id]
  {
    var p := PopHead(s);
    OpsOnlyCancel(p, script.ops);
    var r := RunHead(s, script);
    RanIdsSkipCancels(r.fates, |p.fates|);
    assert r.fates[..|p.fates|] == p.fates;
    assert p.fates[..|p.fates| - 1] == s.fates;
  }
}
