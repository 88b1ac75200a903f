/**
  The event trace itself: a doubly linked list threaded by index through a fixed array, whose
  entries with no name are free.
 */
module Trace {
  import opened Words
  import opened TraceFifo

  /** One element of the event array. */
  datatype Slot = Slot(name: nat, task: nat, start: U32, end: U32, next: nat, prev: nat)

  /** One printed line. */
  datatype Line = Line(task: nat, name: nat, start: U32, elapsed: U32)

  // ----- the list in the array -----

  /** The slot of the k-th queued event, INVALID_INDEX outside the queue. */
  function SlotAt(q: seq<Ev>, k: int, n: nat): nat {
    if 0 <= k < |q| then q[k].slot else n + 1
  }

  function NodeOf(q: seq<Ev>, k: nat, n: nat): Slot
    requires k < |q|
  {
    Slot(q[k].name, q[k].task, q[k].start, q[k].end, SlotAt(q, k + 1, n), SlotAt(q, k - 1, n))
  }

  predicate NodeAt(events: seq<Slot>, q: seq<Ev>, k: nat, n: nat)
    requires k < |q|
  {
    q[k].slot < |events| && events[q[k].slot] == NodeOf(q, k, n) && q[k].name != 0
  }

  predicate FreeAt(events: seq<Slot>, q: seq<Ev>, i: nat, n: nat)
    requires i < |events|
  {
    !Uses(q, i) ==> var e := events[i]; e.name == 0 && e.end == 0 && e.next == n + 1 && e.prev == n + 1
  }

  /** The array and the two ends hold the queue: links in both directions, and every other slot free. */
  predicate Backed(events: seq<Slot>, head: nat, tail: nat, q: seq<Ev>, n: nat) {
    && |events| == n && DistinctSlots(q, n)
    && head == SlotAt(q, 0, n) && tail == SlotAt(q, |q| - 1, n)
    && (forall k :: 0 <= k < |q| ==> NodeAt(events, q, k, n))
    && (forall i :: 0 <= i < n ==> FreeAt(events, q, i, n))
  }

  lemma {:induction false} UsesAt(q: seq<Ev>, i: nat)
    ensures Uses(q, i) <==> exists k :: 0 <= k < |q| && q[k].slot == i
  {
    if Uses(q, i) {
      var e :| e in q && e.slot == i;
      var k :| 0 <= k < |q| && q[k] == e;
    }
    if k :| 0 <= k < |q| && q[k].slot == i {
      assert q[k] in q;
    }
  }

  /** A slot has a name exactly when it is in the list. */
  lemma {:induction false} FreeExactly(events: seq<Slot>, head: nat, tail: nat, q: seq<Ev>, n: nat, i: nat)
    requires Backed(events, head, tail, q, n) && i < n
    ensures events[i].name == 0 <==> !Uses(q, i)
  {
    UsesAt(q, i);
    if Uses(q, i) {
      var k :| 0 <= k < |q| && q[k].slot == i;
      assert NodeAt(events, q, k, n);
    } else {
      assert FreeAt(events, q, i, n);
    }
  }

  // ----- appending -----

  /** The array after nltrace_event_start has filled a free slot and linked it behind the tail. */
  function Appended(events: seq<Slot>, tail: nat, e: Ev, n: nat): (r: seq<Slot>)
    requires e.slot < |events| && (tail < |events| || tail == n + 1)
  {
    var s := Slot(e.name, e.task, e.start, events[e.slot].end, n + 1, tail);
    if tail >= |events| then events[e.slot := s]
    else events[tail := events[tail].(next := e.slot)][e.slot := s]
  }

  lemma {:induction false} AppendBacked(events: seq<Slot>, head: nat, tail: nat, q: seq<Ev>, n: nat, e: Ev)
    requires Backed(events, head, tail, q, n)
    requires e.slot < n && !Uses(q, e.slot) && e.name != 0 && e.end == 0
    ensures tail < n || tail == n + 1
    ensures Backed(Appended(events, tail, e, n), if q == [] then e.slot else head, e.slot, q + [e], n)
  {
    var r, q' := Appended(events, tail, e, n), q + [e];
    assert FreeAt(events, q, e.slot, n);
    forall i, j | 0 <= i < j < |q'| ensures SlotsDiffer(q', i, j) {
      if j < |q| {
        assert SlotsDiffer(q, i, j);
      } else {
        assert q[i] in q;
      }
    }
    forall k | 0 <= k < |q'| ensures NodeAt(r, q', k, n) {
      if k < |q| {
        assert q[k] in q && NodeAt(events, q, k, n);
        assert k < |q| - 1 ==> SlotsDiffer(q, k, |q| - 1);
      }
    }
    forall i | 0 <= i < n ensures FreeAt(r, q', i, n) {
      assert FreeAt(events, q, i, n);
      UsesAt(q, i);
      UsesAt(q', i);
      assert q'[|q|] == e;
      assert forall k :: 0 <= k < |q| ==> q'[k] == q[k];
    }
  }

  // ----- removing -----

  function Cut(q: seq<Ev>, k: nat): (r: seq<Ev>)
    requires k < |q|
  {
    q[..k] + q[k + 1..]
  }

  /** A slot as nltrace_remove_locked leaves it. */
  function Cleared(s: Slot, n: nat): Slot {
    Slot(0, s.task, 0, 0, n + 1, n + 1)
  }

  /** The array after the k-th event was unlinked: its neighbours point past it and its slot is free. */
  function Unlinked(events: seq<Slot>, q: seq<Ev>, k: nat, n: nat): (r: seq<Slot>)
    requires |events| == n && k < |q| && DistinctSlots(q, n)
  {
    var prev, next, ind := SlotAt(q, k - 1, n), SlotAt(q, k + 1, n), q[k].slot;
    var a := if k == 0 then events else events[prev := events[prev].(next := next)];
    var b := if k + 1 == |q| then a else a[next := a[next].(prev := prev)];
    b[ind := Cleared(b[ind], n)]
  }

  lemma {:induction false} CutDistinct(q: seq<Ev>, n: nat, k: nat)
    requires DistinctSlots(q, n) && k < |q|
    ensures DistinctSlots(Cut(q, k), n)
  {
    var r := Cut(q, k);
    forall i, j | 0 <= i < j < |r| ensures SlotsDiffer(r, i, j) {
      assert SlotsDiffer(q, if i < k then i else i + 1, if j < k then j else j + 1);
    }
  }

  lemma {:induction false} SlotsDistinct(q: seq<Ev>, n: nat, i: nat, j: nat)
    requires DistinctSlots(q, n) && i < |q| && j < |q| && i != j
    ensures q[i].slot != q[j].slot
  {
    assert if i < j then SlotsDiffer(q, i, j) else SlotsDiffer(q, j, i);
  }

  lemma {:induction false} UnlinkNode(events: seq<Slot>, q: seq<Ev>, n: nat, k: nat, m: nat)
    requires |events| == n && DistinctSlots(q, n) && k < |q| && m < |q| - 1
    requires forall i :: 0 <= i < |q| ==> NodeAt(events, q, i, n)
    ensures NodeAt(Unlinked(events, q, k, n), Cut(q, k), m, n)
  {
    var i := if m < k then m else m + 1;
    assert NodeAt(events, q, i, n) && Cut(q, k)[m] == q[i];
    SlotsDistinct(q, n, i, k);
    if k > 0 && i != k - 1 {
      SlotsDistinct(q, n, i, k - 1);
    }
    if k + 1 < |q| && i != k + 1 {
      SlotsDistinct(q, n, i, k + 1);
    }
    if 0 < k && k + 1 < |q| {
      SlotsDistinct(q, n, k - 1, k + 1);
    }
  }

  lemma {:induction false} UnlinkFree(events: seq<Slot>, q: seq<Ev>, n: nat, k: nat, i: nat)
    requires |events| == n && DistinctSlots(q, n) && k < |q| && i < n
    requires FreeAt(events, q, i, n)
    ensures FreeAt(Unlinked(events, q, k, n), Cut(q, k), i, n)
  {
    var r := Cut(q, k);
    if i != q[k].slot && !Uses(r, i) {
      UsesAt(q, i);
      UsesAt(r, i);
      forall m | 0 <= m < |q| ensures q[m].slot != i {
        if m != k {
          assert r[if m < k then m else m - 1] == q[m];
        }
      }
      assert !Uses(q, i);
    }
  }

  /** Removing any event of the list, wherever it is, leaves the rest of the list as it was. */
  lemma {:induction false} UnlinkBacked(events: seq<Slot>, head: nat, tail: nat, q: seq<Ev>, n: nat, k: nat)
    requires Backed(events, head, tail, q, n) && k < |q|
    ensures Backed(Unlinked(events, q, k, n), SlotAt(Cut(q, k), 0, n), SlotAt(Cut(q, k), |q| - 2, n), Cut(q, k), n)
  {
    CutDistinct(q, n, k);
    var r, q' := Unlinked(events, q, k, n), Cut(q, k);
    forall m | 0 <= m < |q'| ensures NodeAt(r, q', m, n) {
      UnlinkNode(events, q, n, k, m);
    }
    forall i | 0 <= i < n ensures FreeAt(r, q', i, n) {
      UnlinkFree(events, q, n, k, i);
    }
  }

  // ----- ending -----

  /** The array after an end time was stored, if the name matches and none was stored before. */
  function Stamped(events: seq<Slot>, id: nat, name: nat, now: U32): (r: seq<Slot>)
    requires id < |events|
  {
    var e := events[id];
    if e.name == name && e.end == 0 then events[id := e.(end := now)] else events
  }

  lemma {:induction false} EndNode(events: seq<Slot>, q: seq<Ev>, n: nat, id: nat, name: nat, now: U32, k: nat)
    requires |events| == n && DistinctSlots(q, n) && id < n && k < |q| && NodeAt(events, q, k, n)
    ensures NodeAt(Stamped(events, id, name, now), SetEnd(q, id, name, now), k, n)
  {
    SetEndSlots(q, n, id, name, now, k);
    if k > 0 { SetEndSlots(q, n, id, name, now, k - 1); }
    if k + 1 < |q| { SetEndSlots(q, n, id, name, now, k + 1); }
  }

  lemma {:induction false} EndFree(events: seq<Slot>, q: seq<Ev>, n: nat, id: nat, name: nat, now: U32, i: nat)
    requires |events| == n && DistinctSlots(q, n) && id < n && name != 0 && i < n && FreeAt(events, q, i, n)
    ensures FreeAt(Stamped(events, id, name, now), SetEnd(q, id, name, now), i, n)
  {
    var q' := SetEnd(q, id, name, now);
    UsesAt(q, i);
    UsesAt(q', i);
    if Uses(q, i) {
      var k :| 0 <= k < |q| && q[k].slot == i;
      SetEndSlots(q, n, id, name, now, k);
      assert q'[k].slot == i;
    }
  }

  lemma {:induction false} EndDistinct(q: seq<Ev>, n: nat, id: nat, name: nat, now: U32)
    requires DistinctSlots(q, n)
    ensures DistinctSlots(SetEnd(q, id, name, now), n)
  {
    var q' := SetEnd(q, id, name, now);
    forall i | 0 <= i < |q| ensures q'[i].slot == q[i].slot {
      SetEndSlots(q, n, id, name, now, i);
    }
    forall i, j | 0 <= i < j < |q'| ensures SlotsDiffer(q', i, j) {
      assert SlotsDiffer(q, i, j);
    }
  }

  lemma {:induction false} EndBacked(events: seq<Slot>, head: nat, tail: nat, q: seq<Ev>, n: nat, id: nat, name: nat, now: U32)
    requires Backed(events, head, tail, q, n) && id < n && name != 0
    ensures Backed(Stamped(events, id, name, now), head, tail, SetEnd(q, id, name, now), n)
  {
    var r, q' := Stamped(events, id, name, now), SetEnd(q, id, name, now);
    EndDistinct(q, n, id, name, now);
    forall k | 0 <= k < |q'| ensures NodeAt(r, q', k, n) {
      EndNode(events, q, n, id, name, now, k);
    }
    forall i | 0 <= i < n ensures FreeAt(r, q', i, n) {
      EndFree(events, q, n, id, name, now, i);
    }
    if q != [] {
      SetEndSlots(q, n, id, name, now, 0);
      SetEndSlots(q, n, id, name, now, |q| - 1);
    }
  }

  lemma {:induction false} SetEndSlots(q: seq<Ev>, n: nat, id: nat, name: nat, now: U32, k: nat)
    requires DistinctSlots(q, n) && k < |q|
    ensures SetEnd(q, id, name, now)[k] ==
            if q[k].slot == id && q[k].name == name && q[k].end == 0 then q[k].(end := now) else q[k]
  {
    SetEndAt(q, id, name, now, k);
  }

  function LineOf(e: Ev): Line {
    Line(e.task, e.name, e.start, Sub32(e.end, e.start))
  }

  function LinesOf(q: seq<Ev>): (r: seq<Line>) {
    if q == [] then [] else LinesOf(q[..|q| - 1]) + [LineOf(q[|q| - 1])]
  }

  /** The slot holds a start that has not ended. */
  predicate Records(e: Slot, name: nat, task: nat, now: U32) {
    e.name == name && e.task == task && e.start == now && e.end == 0
  }

  /** The line tells the event: when it started and the ticks from there to its end on the 32-bit timer. */
  predicate Tells(l: Line, e: Ev) {
    && l.name == e.name && l.task == e.task && l.start == e.start
    && (e.start <= e.end ==> l.elapsed == e.end - e.start)
    && (e.start > e.end ==> l.elapsed == 0x1_0000_0000 - (e.start - e.end))
  }

  lemma {:induction false} LinesLength(q: seq<Ev>)
    ensures |LinesOf(q)| == |q|
  {
    if q != [] {
      LinesLength(q[..|q| - 1]);
    }
  }

  lemma {:induction false} LinesAt(q: seq<Ev>, i: nat)
    requires i < |q|
    ensures i < |LinesOf(q)| && Tells(LinesOf(q)[i], q[i])
    decreases |q|
  {
    LinesLength(q);
    LinesLength(q[..|q| - 1]);
    if i < |q| - 1 {
      LinesAt(q[..|q| - 1], i);
    }
  }

  lemma {:induction false} LinesTell(early: seq<Ev>, more: seq<Ev>, lines: seq<Line>)
    requires LinesOf(early + more) == LinesOf(early) + lines
    ensures |lines| == |more| && forall i :: 0 <= i < |lines| ==> Tells(lines[i], more[i])
  {
    LinesLength(early);
    LinesLength(early + more);
    assert |LinesOf(early) + lines| == |early| + |lines|;
    forall i | 0 <= i < |lines| ensures Tells(lines[i], more[i]) {
      LinesAt(early + more, |early| + i);
      assert (LinesOf(early) + lines)[|early| + i] == lines[i] && (early + more)[|early| + i] == more[i];
    }
  }

  lemma {:induction false} PrintedTell(s: State, lines: seq<Line>)
    requires LinesOf(TraceFifo.Print(s).printed) == LinesOf(s.printed) + lines
    ensures |lines| == |s.queue| - |TraceFifo.Print(s).queue|
    ensures forall i :: 0 <= i < |lines| ==> Tells(lines[i], s.queue[i])
  {
    var k := PrintTakesEndedPrefix(s);
    LinesTell(s.printed, s.queue[..k], lines);
  }

  class Tracer {
    const n: nat                  // NL_TRACE_MAX_EVENTS
    const events: array<Slot>
    var head: nat
    var tail: nat
    var enabled: bool

    ghost predicate Represents(s: State)
      reads this, events
    {
      Backed(events[..], head, tail, s.queue, n) && s.enabled == enabled
    }

    /** nltrace_init. */
    constructor (n: nat)
      requires n < 255
      ensures this.n == n && fresh(events) && Represents(Boot)
    {
      this.n := n;
      var free := Slot(0, 0, 0, 0, n + 1, n + 1);
      events := new Slot[n](_ => free);
      head, tail, enabled := n + 1, n + 1, false;
      new;
      forall i | 0 <= i < n ensures FreeAt(events[..], [], i, n) {
      }
    }

    /** nltrace_alloc_index_locked. */
    method Alloc(ghost q: seq<Ev>) returns (ind: nat)
      requires Backed(events[..], head, tail, q, n)
      ensures ind == LowestFree(q, 0, n)
      ensures (ind < n && events[ind].name == 0) || ind == n + 1
      ensures forall k :: 0 <= k < n && k < ind ==> events[k].name != 0
    {
      for i := 0 to n
        invariant events.Length == n && LowestFree(q, i, n) == LowestFree(q, 0, n)
        invariant forall k :: 0 <= k < i ==> events[k].name != 0
      {
        FreeExactly(events[..], head, tail, q, n, i);
        if events[i].name == 0 {
          return i;
        }
      }
      return n + 1;
    }

    /** nltrace_insert_locked. */
    method Insert(ind: nat)
      requires events.Length == n && ind < n && (tail < n || (head == n + 1 && tail == n + 1)) && tail != ind
      requires events[ind].next == n + 1 && events[ind].prev == n + 1
      modifies this`head, this`tail, events
      ensures tail == ind && head == if old(tail) == n + 1 then ind else old(head)
      ensures events[..] ==
              (if old(tail) == n + 1 then old(events[..])
               else old(events[..])[old(tail) := old(events[tail]).(next := ind)])
              [ind := old(events[ind]).(prev := old(tail), next := n + 1)]
    {
      if head == n + 1 && tail == n + 1 {
        head := ind;
      } else {
        events[ind] := events[ind].(prev := tail);
        events[tail] := events[tail].(next := ind);
        events[ind] := events[ind].(next := n + 1);
      }
      tail := ind;
    }

    /** nltrace_event_start_with_taskname; `now` is the elapsed time of the trace timer. A start with a
        name keeps the list and the free slots in step. A start with a NULL name, if it finds a slot, does
        not: the slot is then in the list and free at once. */
    method Start(name: nat, task: nat, now: U32, ghost s: State) returns (ind: nat)
      requires Represents(s)
      modifies this`head, this`tail, events
      ensures ind == if s.enabled then LowestFree(s.queue, 0, n) else n + 1
      ensures name != 0 || ind == n + 1 ==> Represents(TraceFifo.Start(s, n, name, task, now))
      ensures ind != n + 1 ==> ind < n && tail == ind && Records(events[ind], name, task, now)
      ensures name == 0 && ind != n + 1 ==> forall s' :: !Represents(s')
    {
      ind := n + 1;
      if enabled {
        ind := Alloc(s.queue);
        if ind != n + 1 {
          Fill(ind, name, task, now, s);
        }
      }
    }

    method Fill(ind: nat, name: nat, task: nat, now: U32, ghost s: State)
      requires Represents(s) && ind < n && !Uses(s.queue, ind)
      modifies this`head, this`tail, events
      ensures name != 0 ==> Represents(s.(queue := s.queue + [Ev(ind, name, task, now, 0)]))
      ensures tail == ind && Records(events[ind], name, task, now)
      ensures name == 0 ==> forall s' :: !Represents(s')
    {
      ghost var e := Ev(ind, name, task, now, 0);
      assert FreeAt(events[..], s.queue, ind, n);
      if name != 0 {
        AppendBacked(events[..], head, tail, s.queue, n, e);
      }
      TailElsewhere(s.queue, ind);
      events[ind] := events[ind].(task := task, name := name, start := now);
      Insert(ind);
      assert events[..] == Appended(old(events[..]), old(tail), e, n);
      if name == 0 {
        NamelessTail(events[..], head, tail, n);
      }
    }

    lemma {:induction false} TailElsewhere(q: seq<Ev>, ind: nat)
      requires Backed(events[..], head, tail, q, n) && ind < n && !Uses(q, ind)
      ensures tail != ind && (tail < n || (head == n + 1 && tail == n + 1))
    {
      if q != [] {
        assert q[|q| - 1] in q;
      }
    }

    /** nltrace_event_end. The bound check lets through one id that is not in the array; the result says
        whether the access stayed in the array. */
    method End(id: nat, name: nat, now: U32, ghost s: State) returns (inArray: bool)
      requires Represents(s)
      modifies events
      ensures inArray == !(s.enabled && id == n)
      ensures inArray && (name != 0 || !s.enabled || id >= n) ==> Represents(if id < n then TraceFifo.End(s, id, name, now) else s)
      ensures s.enabled && name == 0 && id < n && !Uses(s.queue, id) && now != 0 ==> forall s' :: !Represents(s')
    {
      if enabled {
        if id < n + 1 {
          if id == n {
            return false;
          }
          if name != 0 {
            EndBacked(events[..], head, tail, s.queue, n, id, name, now);
          } else {
            FreeExactly(events[..], head, tail, s.queue, n, id);
            assert FreeAt(events[..], s.queue, id, n);
          }
          if events[id].name == name && events[id].end == 0 {
            events[id] := events[id].(end := now);
            assert events[..] == Stamped(old(events[..]), id, name, now);
            if name == 0 && !Uses(s.queue, id) && now != 0 {
              EndedFree(events[..], head, tail, n, id);
            }
          }
        }
      }
      return true;
    }

    /** nltrace_remove_locked, for any event of the list. */
    method Remove(ind: nat, ghost q: seq<Ev>, ghost k: nat) returns (next: nat)
      requires Backed(events[..], head, tail, q, n) && k < |q| && q[k].slot == ind
      modifies this`head, this`tail, events
      ensures Backed(events[..], head, tail, Cut(q, k), n)
      ensures next == SlotAt(q, k + 1, n)
    {
      UnlinkBacked(events[..], head, tail, q, n, k);
      Neighbours(events[..], q, n, k);
      next := events[ind].next;
      var prev := events[ind].prev;
      if next == n + 1 && prev == n + 1 {
        head, tail := n + 1, n + 1;
      } else if next == n + 1 {
        tail := prev;
        events[prev] := events[prev].(next := n + 1);
      } else if prev == n + 1 {
        head := next;
        events[next] := events[next].(prev := n + 1);
      } else {
        events[prev] := events[prev].(next := next);
        events[next] := events[next].(prev := prev);
      }
      events[ind] := events[ind].(name := 0, start := 0, end := 0, next := n + 1, prev := n + 1);
      assert events[..] == Unlinked(old(events[..]), q, k, n);
    }

    /** nltrace_print_locked: prints and removes the longest ended prefix, one line for each event, which tells its
        name, task, start and how long it took. */
    method Print(ghost s: State) returns (lines: seq<Line>)
      requires Represents(s)
      modifies this`head, this`tail, events
      ensures Represents(TraceFifo.Print(s))
      ensures LinesOf(TraceFifo.Print(s).printed) == LinesOf(s.printed) + lines
      ensures |lines| == |s.queue| - |TraceFifo.Print(s).queue|
      ensures forall i :: 0 <= i < |lines| ==> Tells(lines[i], s.queue[i])
    {
      lines := PrintEnded(s);
      PrintedTell(s, lines);
    }

    method PrintEnded(ghost s: State) returns (lines: seq<Line>)
      requires Represents(s)
      modifies this`head, this`tail, events
      ensures Represents(TraceFifo.Print(s))
      ensures LinesOf(TraceFifo.Print(s).printed) == LinesOf(s.printed) + lines
    {
      lines := [];
      var ind := head;
      ghost var m := s;
      while ind != n + 1
        invariant Represents(m) && ind == head && TraceFifo.Print(m) == TraceFifo.Print(s)
        invariant LinesOf(m.printed) == LinesOf(s.printed) + lines
        decreases |m.queue|
      {
        assert NodeAt(events[..], m.queue, 0, n);
        if events[ind].end != 0 {
          lines := lines + [Line(events[ind].task, events[ind].name, events[ind].start,
                                 Sub32(events[ind].end, events[ind].start))];
          ind := Remove(ind, m.queue, 0);
          assert Cut(m.queue, 0) == m.queue[1..];
          assert (m.printed + [m.queue[0]])[..|m.printed|] == m.printed;
          m := PrintHead(m);
        } else {
          break;
        }
      }
    }

    /** Names are given, and ids are in the array. */
    ghost predicate Proper(ev: Event) {
      match ev
      case OnStart(name, _, _) => name != 0
      case OnEnd(id, name, _) => name != 0 && id < n
      case _ => true
    }

    /** Any run of proper calls keeps the array holding exactly the FIFO's queue. */
    method Execute(evs: seq<Event>, ghost s: State)
      requires Represents(s) && forall k :: 0 <= k < |evs| ==> Proper(evs[k])
      modifies this, events
      ensures Represents(Run(s, n, evs))
    {
      ghost var m := s;
      for k := 0 to |evs|
        invariant Represents(m) && Run(m, n, evs[k..]) == Run(s, n, evs)
      {
        assert evs[k..][0] == evs[k] && evs[k..][1..] == evs[k + 1..];
        match evs[k] {
          case OnStart(name, task, now) => var _ := Start(name, task, now, m);
          case OnEnd(id, name, now) => var _ := End(id, name, now, m);
          case OnPrint => var _ := Print(m);
          case OnEnable(on) => enabled := on;
        }
        m := Step(m, n, evs[k]);
      }
    }
  }

  lemma {:induction false} TailNamed(events: seq<Slot>, head: nat, tail: nat, q: seq<Ev>, n: nat)
    requires Backed(events, head, tail, q, n) && tail < n
    ensures events[tail].name != 0
  {
    assert NodeAt(events, q, |q| - 1, n);
  }

  /** No queue has a nameless event at its tail. */
  lemma {:induction false} NamelessTail(events: seq<Slot>, head: nat, tail: nat, n: nat)
    requires tail < n == |events| && events[tail].name == 0
    ensures forall q :: !Backed(events, head, tail, q, n)
  {
    forall q ensures !Backed(events, head, tail, q, n) {
      if Backed(events, head, tail, q, n) {
        TailNamed(events, head, tail, q, n);
      }
    }
  }

  lemma {:induction false} NamelessNotEnded(events: seq<Slot>, head: nat, tail: nat, q: seq<Ev>, n: nat, id: nat)
    requires Backed(events, head, tail, q, n) && id < n && events[id].name == 0
    ensures events[id].end == 0
  {
    FreeExactly(events, head, tail, q, n, id);
    assert FreeAt(events, q, id, n);
  }

  /** No queue goes with a slot that has an end time but no name. */
  lemma {:induction false} EndedFree(events: seq<Slot>, head: nat, tail: nat, n: nat, id: nat)
    requires id < n == |events| && events[id].name == 0 && events[id].end != 0
    ensures forall q :: !Backed(events, head, tail, q, n)
  {
    forall q ensures !Backed(events, head, tail, q, n) {
      if Backed(events, head, tail, q, n) {
        NamelessNotEnded(events, head, tail, q, n, id);
      }
    }
  }

  lemma {:induction false} Neighbours(events: seq<Slot>, q: seq<Ev>, n: nat, k: nat)
    requires |events| == n && DistinctSlots(q, n) && k < |q| && NodeAt(events, q, k, n)
    ensures var e := events[q[k].slot];
            && e.next == SlotAt(q, k + 1, n) && e.prev == SlotAt(q, k - 1, n)
            && (k > 0 ==> e.prev < n && e.prev != q[k].slot)
            && (k + 1 < |q| ==> e.next < n && e.next != q[k].slot)
            && (k > 0 && k + 1 < |q| ==> e.next != e.prev)
  {
    if k > 0 { SlotsDistinct(q, n, k - 1, k); }
    if k + 1 < |q| { SlotsDistinct(q, n, k, k + 1); }
    if k > 0 && k + 1 < |q| { SlotsDistinct(q, n, k - 1, k + 1); }
  }
}
