/**
  What the RAM console promises, without buffers or indices: the newest bytes of this boot's log,
  and as much of the end of the previous boot's log as there is room for beside them.
 */
module ConsoleLog {
  import opened Words

  type Text = seq<U8>

  datatype Log = Log(size: nat, prev: Text, cur: Text, enabled: bool)

  datatype Event =
    | Boot                                   // the bootloader's init, with a valid console in RAM
    | AppInit(newSize: nat, scratch: nat)    // the application's init, with its own buffer size
    | Enable
    | Disable
    | Write(data: Text)

  function Last(s: Text, n: nat): (r: Text)
    ensures |r| == Min(|s|, n)
  {
    if |s| <= n then s else s[|s| - n..]
  }

  lemma {:induction false} LastAt(s: Text, n: nat, k: nat)
    requires k < Min(|s|, n)
    ensures Last(s, n)[k] == s[|s| - Min(|s|, n) + k]
  {
  }

  function Append(l: Log, data: Text): (r: Log) {
    var cur := Last(l.cur + data, l.size);
    l.(cur := cur, prev := if |cur| <= l.size then Last(l.prev, l.size - |cur|) else [])
  }

  /** How many bytes a change of buffer size keeps. */
  function Kept(l: Log, newSize: nat, scratch: nat): (k: nat) {
    Min(Min(|l.prev| + |l.cur|, newSize), scratch)
  }

  function Resize(l: Log, newSize: nat, scratch: nat): (r: Log) {
    var k := Kept(l, newSize, scratch);
    var cur := Last(l.cur, k);
    Log(newSize, Last(l.prev, k - |cur|), cur, l.enabled)
  }

  function Step(l: Log, ev: Event): (r: Log) {
    match ev
    case Boot => l.(prev := l.cur, cur := [], enabled := true)
    case AppInit(newSize, scratch) =>
      (if newSize == l.size then l else Resize(l, newSize, scratch)).(enabled := false)
    case Enable => l.(enabled := true)
    case Disable => l.(enabled := false)
    case Write(data) => if l.enabled then Append(l, data) else l
  }

  function Run(l: Log, evs: seq<Event>): (r: Log)
    decreases |evs|
  {
    if evs == [] then l else Run(Step(l, evs[0]), evs[1..])
  }

  predicate Ok(l: Log) {
    |l.prev| + |l.cur| <= l.size
  }

  // ----- complete histories -----

  /** Everything the previous boot wrote and everything this boot has written while recording was on; a boot turns it
      on, the application's init off. */
  datatype History = History(prev: Text, cur: Text, on: bool)

  function Record(h: History, ev: Event): (r: History) {
    match ev
    case Boot => History(h.cur, [], true)
    case AppInit(_, _) => h.(on := false)
    case Enable => h.(on := true)
    case Disable => h.(on := false)
    case Write(data) => if h.on then h.(cur := h.cur + data) else h
  }

  function RecordAll(h: History, evs: seq<Event>): (r: History)
    decreases |evs|
  {
    if evs == [] then h else RecordAll(Record(h, evs[0]), evs[1..])
  }

  predicate SuffixOf(a: Text, b: Text) {
    |a| <= |b| && a == Last(b, |a|)
  }

  /** Both logs end where they should, and the previous log is kept only while this boot's is whole. */
  predicate Faithful(h: History, l: Log) {
    && Ok(l) && SuffixOf(l.prev, h.prev) && SuffixOf(l.cur, h.cur)
    && (l.prev != [] ==> l.cur == h.cur)
    && l.enabled == h.on
  }

  /** What the two kept texts are of the two histories, in a buffer of the given size. */
  predicate Promised(h: History, size: nat, cur: Text, prev: Text) {
    && |prev| + |cur| <= size && SuffixOf(cur, h.cur) && SuffixOf(prev, h.prev)
    && (prev != [] ==> cur == h.cur)
  }

  predicate FullyKept(h: History, size: nat, cur: Text, prev: Text) {
    cur == Last(h.cur, size) && |cur| <= size && prev == Last(h.prev, size - |cur|)
  }

  predicate SizeKept(evs: seq<Event>, size: nat) {
    forall k :: 0 <= k < |evs| && evs[k].AppInit? ==> evs[k].newSize == size
  }

  /** Without a change of size nothing that fits is ever dropped. */
  predicate Complete(h: History, l: Log) {
    Ok(l) && l.cur == Last(h.cur, l.size) && l.prev == Last(h.prev, l.size - |l.cur|) && l.enabled == h.on
  }

  lemma {:induction false} LastOfLast(s: Text, m: nat, n: nat)
    ensures Last(Last(s, m), n) == Last(s, Min(m, n))
  {
  }

  lemma {:induction false} LastConcat(s: Text, t: Text, n: nat)
    ensures Last(Last(s, n) + t, n) == Last(s + t, n)
  {
  }

  lemma {:induction false} AppendComplete(h: History, l: Log, data: Text)
    requires Complete(h, l)
    ensures Complete(h.(cur := h.cur + data), Append(l, data))
  {
    LastConcat(h.cur, data, l.size);
    var cur := Last(l.cur + data, l.size);
    LastOfLast(h.prev, l.size - |l.cur|, l.size - |cur|);
  }

  lemma {:induction false} SuffixConcat(a: Text, b: Text, t: Text, n: nat)
    requires SuffixOf(a, b)
    ensures SuffixOf(Last(a + t, n), b + t)
  {
    if |a| < |b| {
      var k := |b| - |a|;
      assert b + t == b[..k] + (a + t);
    }
  }

  lemma {:induction false} SuffixLast(a: Text, b: Text, n: nat)
    requires SuffixOf(a, b)
    ensures SuffixOf(Last(a, n), b)
  {
  }

  lemma {:induction false} AppendFaithful(h: History, l: Log, data: Text)
    requires Faithful(h, l)
    ensures Faithful(h.(cur := h.cur + data), Append(l, data))
  {
    SuffixConcat(l.cur, h.cur, data, l.size);
    SuffixLast(l.prev, h.prev, l.size - |Last(l.cur + data, l.size)|);
  }

  lemma {:induction false} ResizeFaithful(h: History, l: Log, newSize: nat, scratch: nat)
    requires Faithful(h, l)
    ensures Faithful(h.(on := false), Resize(l, newSize, scratch).(enabled := false))
  {
    var k := Kept(l, newSize, scratch);
    SuffixLast(l.cur, h.cur, k);
    SuffixLast(l.prev, h.prev, k - |Last(l.cur, k)|);
  }

  /** A change of buffer size keeps exactly the newest bytes of the two logs taken together. */
  lemma {:induction false} ResizeKeepsNewest(l: Log, newSize: nat, scratch: nat)
    ensures var r := Resize(l, newSize, scratch);
            && r.prev + r.cur == Last(l.prev + l.cur, Min(newSize, scratch)) && Ok(r)
            && r.cur == Last(l.cur, Min(newSize, scratch)) && r.size == newSize
  {
    var k := Kept(l, newSize, scratch);
    if k <= |l.cur| {
      LastOfRight(l.prev, l.cur, k);
      assert [] + Last(l.cur, k) == Last(l.cur, k);
    } else {
      LastOfBoth(l.prev, l.cur, k);
    }
    assert Last(l.prev + l.cur, Min(newSize, scratch)) == Last(l.prev + l.cur, k);
  }

  /** The application's init with another buffer size does that, the boundary between the logs included, and with the
      same size it keeps everything. */
  lemma {:induction false} InitKeepsNewest(l: Log, newSize: nat, scratch: nat)
    requires Ok(l)
    ensures var r, k := Step(l, AppInit(newSize, scratch)), if newSize == l.size then l.size else Min(newSize, scratch);
            r.prev + r.cur == Last(l.prev + l.cur, k) && r.cur == Last(l.cur, k) && r.size == newSize
  {
    ResizeKeepsNewest(l, newSize, scratch);
  }

  lemma {:induction false} LastOfRight(a: Text, b: Text, k: nat)
    requires k <= |b|
    ensures Last(a + b, k) == Last(b, k)
  {
  }

  lemma {:induction false} LastOfBoth(a: Text, b: Text, k: nat)
    requires |b| < k <= |a| + |b|
    ensures Last(a + b, k) == Last(a, k - |b|) + b
  {
  }

  lemma {:induction false} BootFaithful(h: History, l: Log)
    requires Faithful(h, l)
    ensures Faithful(History(h.cur, [], true), l.(prev := l.cur, cur := [], enabled := true))
  {
    SuffixSelf([]);
  }

  lemma {:induction false} StepFaithful(h: History, l: Log, ev: Event)
    requires Faithful(h, l)
    ensures Faithful(Record(h, ev), Step(l, ev))
  {
    match ev
    case Write(data) => AppendFaithful(h, l, data);
    case AppInit(newSize, scratch) => ResizeFaithful(h, l, newSize, scratch);
    case Boot => BootFaithful(h, l);
    case _ =>
  }

  lemma {:induction false} SuffixSelf(a: Text)
    ensures SuffixOf(a, a)
  {
  }

  /** Over any run of boots, writes and size changes, what is kept of each log is its newest end. */
  lemma {:induction false} RunFaithful(h: History, l: Log, evs: seq<Event>)
    requires Faithful(h, l)
    ensures Faithful(RecordAll(h, evs), Run(l, evs))
    decreases |evs|
  {
    if evs != [] {
      StepFaithful(h, l, evs[0]);
      RunFaithful(Record(h, evs[0]), Step(l, evs[0]), evs[1..]);
    }
  }

  /** Over any run that does not change the size, it is as much of that end as the buffer can hold. */
  lemma {:induction false} RunComplete(h: History, l: Log, evs: seq<Event>)
    requires Complete(h, l)
    requires SizeKept(evs, l.size)
    ensures Complete(RecordAll(h, evs), Run(l, evs))
    decreases |evs|
  {
    if evs != [] {
      if evs[0].Write? {
        AppendComplete(h, l, evs[0].data);
      } else if evs[0].Boot? {
        assert Last(h.cur, l.size) == Last(h.cur, l.size - 0);
      }
      RunComplete(Record(h, evs[0]), Step(l, evs[0]), evs[1..]);
    }
  }
}
