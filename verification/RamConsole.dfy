/**
  The RAM console: one circular buffer in retained RAM, with indices that say where this boot's log
  and the remains of the previous boot's log end.
 */
module RamConsole {
  import opened Words
  import opened ConsoleLog

  const MAGIC: U32 := 0xABED_FACE

  // ----- circular indices -----

  /** The index n places before i, going round a buffer of the given size. */
  function Back(i: nat, n: nat, size: nat): (r: nat)
    requires i < size && n <= size
    ensures r < size
  {
    if i >= n then i - n else i + size - n
  }

  /** The index n places after i. */
  function Forward(i: nat, n: nat, size: nat): (r: nat)
    requires i < size && n <= size
    ensures r < size
  {
    if i + n < size then i + n else i + n - size
  }

  /** The same as the code computes it: 32-bit subtraction, corrected if the result exceeds the size. */
  function WrapBack(i: U32, n: U32, size: U32): (r: U32) {
    if Sub32(i, n) > size then Add32(Sub32(i, n), size) else Sub32(i, n)
  }

  /** The correction is right exactly when it is not needed or can be told from a valid index. */
  lemma {:induction false} WrapBackExact(i: U32, n: U32, size: U32)
    requires i < size && n <= size
    ensures WrapBack(i, n, size) == Back(i, n, size) <==> i >= n || size + n - i < 0x1_0000_0000
  {
  }

  /** In a buffer of 2^32 - 2 bytes, three places before index 0 comes out past the end instead of at 2^32 - 5. */
  lemma {:induction false} WrapBackMisses()
    ensures WrapBack(0, 3, 0xFFFF_FFFE) == 0xFFFF_FFFD && Back(0, 3, 0xFFFF_FFFE) == 0xFFFF_FFFB
  {
  }

  /** The n bytes that end, going round, just before index `end`. */
  function Window(buf: Text, size: nat, end: nat, n: nat): (r: Text)
    requires n <= size <= |buf| && end < size
    ensures |r| == n
  {
    if n == 0 then [] else [buf[Back(end, n, size)]] + Window(buf, size, end, n - 1)
  }

  /** The whole buffer from its oldest byte to its newest. */
  function Ring(buf: Text, size: nat, end: nat): (r: Text)
    requires size <= |buf| && end < size
    ensures |r| == size
  {
    if end == 0 then buf[..size] else buf[end..size] + buf[..end]
  }

  /** A window is a slice of the ring. */
  lemma {:induction false} WindowIsSlice(buf: Text, size: nat, end: nat, at: nat, skip: nat, n: nat, lo: nat, hi: nat)
    requires size <= |buf| && end < size && skip < size && skip + n <= size
    requires at == Back(end, skip, size) && hi == size - skip && lo == hi - n
    ensures Window(buf, size, at, n) == Slice(Ring(buf, size, end), lo, hi)
  {
    var w, s := Window(buf, size, at, n), Slice(Ring(buf, size, end), lo, hi);
    forall k | 0 <= k < n ensures w[k] == s[k] {
      WindowAt(buf, size, at, n, k);
      BackForward(end, skip, n - k, size);
      SliceAt(Ring(buf, size, end), lo, hi, k);
      RingAt(buf, size, end, lo + k);
    }
  }

  lemma {:induction false} WindowAt(buf: Text, size: nat, end: nat, n: nat, k: nat)
    requires k < n <= size <= |buf| && end < size
    ensures Window(buf, size, end, n)[k] == buf[Back(end, n - k, size)]
  {
    if k > 0 {
      WindowAt(buf, size, end, n - 1, k - 1);
    }
  }

  lemma {:induction false} BackForward(end: nat, skip: nat, n: nat, size: nat)
    requires end < size && 0 < n && skip + n <= size
    ensures Back(Back(end, skip, size), n, size) == Forward(end, size - skip - n, size)
  {
  }

  lemma {:induction false} RingAt(buf: Text, size: nat, end: nat, k: nat)
    requires size <= |buf| && end < size && k < size
    ensures Ring(buf, size, end)[k] == buf[Forward(end, k, size)]
  {
  }

  lemma {:induction false} RingShiftAt(buf: Text, size: nat, end: nat, chunk: Text, buf': Text, end': nat, k: nat)
    requires size <= |buf| && end < size && 0 < |chunk| && end + |chunk| <= size && k < size
    requires buf' == buf[..end] + chunk + buf[end + |chunk|..]
    requires end' == Forward(end, |chunk|, size)
    ensures Ring(buf', size, end')[k] ==
      if k < size - |chunk| then Ring(buf, size, end)[|chunk| + k] else chunk[k - (size - |chunk|)]
  {
    RingAt(buf', size, end', k);
    var i := Forward(end', k, size);
    if k < size - |chunk| {
      RingAt(buf, size, end, |chunk| + k);
      assert i == Forward(end, |chunk| + k, size) && (i < end || end + |chunk| <= i);
    } else {
      assert i == end + (k - (size - |chunk|));
    }
  }

  /** Writing a chunk that does not pass the end of the buffer shifts the ring by it. */
  lemma {:induction false} RingShift(buf: Text, size: nat, end: nat, chunk: Text, buf': Text, end': nat)
    requires size <= |buf| && end < size && 0 < |chunk| && end + |chunk| <= size
    requires buf' == buf[..end] + chunk + buf[end + |chunk|..]
    requires end' == Forward(end, |chunk|, size)
    ensures Ring(buf', size, end') == Ring(buf, size, end)[|chunk|..] + chunk
  {
    var r, s := Ring(buf', size, end'), Ring(buf, size, end)[|chunk|..] + chunk;
    forall k | 0 <= k < size ensures r[k] == s[k] {
      RingShiftAt(buf, size, end, chunk, buf', end', k);
    }
  }

  /** bytes_written after a write, as the code computes it: a 32-bit sum cut at the size. */
  function CountAfter(count: U32, len: U32, size: U32): (r: U32) {
    if Add32(count, len) > size then size else Add32(count, len)
  }

  /** The count is right exactly when the sum does not wrap. */
  lemma {:induction false} CountAfterExact(count: U32, len: U32, size: U32)
    requires count <= size
    ensures CountAfter(count, len, size) == Min(count + len, size) <==> count + len < 0x1_0000_0000
  {
  }

  /** With a full 100-byte buffer, a write of 2^32 - 50 bytes leaves a count of 50. */
  lemma {:induction false} CountAfterWraps()
    ensures CountAfter(100, 0xFFFF_FFCE, 100) == 50
  {
  }

  /** The two windows by index are the two newest parts of the ring. */
  lemma {:induction false} ByIndex(
    buf: Text, size: nat, end: nat, count: nat, lastEnd: nat, last: nat, cur: Text, prev: Text)
    requires size <= |buf| && end < size && lastEnd < size && count + last <= size
    requires last > 0 ==> lastEnd == Back(end, count, size)
    ensures CurIs(cur, Ring(buf, size, end), size, count) <==> cur == Window(buf, size, end, count)
    ensures PrevIs(prev, Ring(buf, size, end), size, count, last) <==> prev == Window(buf, size, lastEnd, last)
  {
    CurByIndex(buf, size, end, count);
    PrevByIndex(buf, size, end, count, lastEnd, last);
  }

  lemma {:induction false} CurByIndex(buf: Text, size: nat, end: nat, count: nat)
    requires end < size <= |buf| && count <= size
    ensures Window(buf, size, end, count) == Slice(Ring(buf, size, end), size - count, size)
  {
    WindowIsSlice(buf, size, end, end, 0, count, size - count, size);
  }

  lemma {:induction false} PrevByIndex(buf: Text, size: nat, end: nat, count: nat, lastEnd: nat, last: nat)
    requires size <= |buf| && end < size && lastEnd < size && count + last <= size
    requires last > 0 ==> lastEnd == Back(end, count, size)
    ensures Window(buf, size, lastEnd, last) == Slice(Ring(buf, size, end), size - count - last, size - count)
  {
    if last > 0 {
      WindowIsSlice(buf, size, end, lastEnd, count, last, size - count - last, size - count);
    }
  }

  class Console {
    const ram: array<U8>          // the retained RAM the buffer lies in
    var magic: U32
    var writeIndex: U32
    var bytesWritten: U32
    var lastWriteIndex: U32
    var lastBytesWritten: U32
    var bufSize: U32
    var enabled: bool

    /** The indices describe two logs that do not overlap, the previous one ending where this boot's starts. */
    ghost predicate Valid()
      reads this
    {
      && magic == MAGIC && bufSize <= ram.Length
      && writeIndex < bufSize && lastWriteIndex < bufSize
      && bytesWritten + lastBytesWritten <= bufSize
      && (lastBytesWritten > 0 ==> lastWriteIndex == Back(writeIndex, bytesWritten, bufSize))
    }

    /** The console holds the log `l`: read from oldest to newest, the buffer ends in the previous boot's
        log and then this boot's. */
    ghost predicate Holds(l: Log)
      reads this, ram
    {
      && Valid() && l.size == bufSize && l.enabled == enabled
      && CurIs(l.cur, Ring(ram[..], bufSize, writeIndex), bufSize, bytesWritten)
      && PrevIs(l.prev, Ring(ram[..], bufSize, writeIndex), bufSize, bytesWritten, lastBytesWritten)
    }

    /** In terms of the two indices: the bytes_written bytes ending, going round, at write_index are this
        boot's log, and the last_bytes_written bytes ending at last_write_index the previous boot's. */
    lemma {:induction false} HoldsByIndex(l: Log)
      requires Valid() && l.size == bufSize && l.enabled == enabled
      ensures Holds(l) <==>
                && l.cur == Window(ram[..], bufSize, writeIndex, bytesWritten)
                && l.prev == Window(ram[..], bufSize, lastWriteIndex, lastBytesWritten)
    {
      ByIndex(ram[..], bufSize, writeIndex, bytesWritten, lastWriteIndex, lastBytesWritten, l.cur, l.prev);
    }

    method CopyIn(at: nat, data: Text)
      requires at + |data| <= ram.Length
      modifies ram
      ensures ram[..] == old(ram[..])[..at] + data + old(ram[..])[at + |data|..]
    {
      forall i | 0 <= i < |data| {
        ram[at + i] := data[i];
      }
    }

    /** One memcpy and the move of the write index. */
    method CopyChunk(chunk: Text, ghost ring: Text)
      requires bufSize <= ram.Length && writeIndex + |chunk| <= bufSize && writeIndex < bufSize && |chunk| > 0
      requires ring == Ring(ram[..], bufSize, writeIndex)
      modifies this`writeIndex, ram
      ensures writeIndex == Forward(old(writeIndex), |chunk|, bufSize)
      ensures Ring(ram[..], bufSize, writeIndex) == ring[|chunk|..] + chunk
    {
      CopyIn(writeIndex, chunk);
      writeIndex := writeIndex + |chunk|;
      if writeIndex >= bufSize {
        writeIndex := 0;
      }
      RingShift(old(ram[..]), bufSize, old(writeIndex), chunk, ram[..], writeIndex);
    }

    /** The copying loop of nl_ram_console_write. */
    method CopyRound(data: Text, ghost ring: Text)
      requires bufSize <= ram.Length && writeIndex < bufSize && ring == Ring(ram[..], bufSize, writeIndex)
      modifies this`writeIndex, ram
      ensures writeIndex < bufSize
      ensures |data| < bufSize ==> writeIndex == Forward(old(writeIndex), |data|, bufSize)
      ensures Ring(ram[..], bufSize, writeIndex) == Shift(ring, data)
    {
      var rest := data;
      ghost var now := ring;
      while rest != []
        invariant writeIndex < bufSize && |rest| <= |data|
        invariant now == Ring(ram[..], bufSize, writeIndex) && Shift(now, rest) == Shift(ring, data)
        invariant |data| < bufSize ==> writeIndex == Forward(old(writeIndex), |data| - |rest|, bufSize)
        decreases |rest|
      {
        var room := bufSize - writeIndex;
        var n := if |rest| < room then |rest| else room;
        ShiftSplit(now, rest, n);
        CopyChunk(rest[..n], now);
        now := now[n..] + rest[..n];
        rest := rest[n..];
      }
    }

    /** nl_ram_console_write. If the 32-bit count wraps, the newest bytes are in the buffer all the same but the
        count is short by 2^32. */
    method Write(data: Text, ghost l: Log)
      requires Holds(l) && |data| < 0x1_0000_0000
      modifies this`writeIndex, this`bytesWritten, this`lastBytesWritten, ram
      ensures !l.enabled ==> Holds(l)
      ensures l.enabled && old(bytesWritten) + |data| < 0x1_0000_0000 ==> Holds(Append(l, data))
      ensures l.enabled && old(bytesWritten) + |data| >= 0x1_0000_0000 ==>
        && writeIndex < bufSize && bytesWritten == old(bytesWritten) + |data| - 0x1_0000_0000
        && Ring(ram[..], bufSize, writeIndex) == Shift(old(Ring(ram[..], bufSize, writeIndex)), data)
    {
      if !enabled {
        return;
      }
      ghost var ring := Ring(ram[..], bufSize, writeIndex);
      ghost var count := Min(bytesWritten + |data|, bufSize);
      ghost var last := Min(lastBytesWritten, bufSize - count);
      AppendSlices(ring, bufSize, l, data, bytesWritten, lastBytesWritten, count, last);
      ghost var l' := Append(l, data);
      ghost var ring' := Shift(ring, data);
      assert CurIs(l'.cur, ring', bufSize, count) && PrevIs(l'.prev, ring', bufSize, count, last);
      CountAfterExact(bytesWritten, |data|, bufSize);
      WriteEnabled(data, ring, ring');
    }

    method WriteEnabled(data: Text, ghost ring: Text, ghost ring': Text)
      requires Valid() && ring == Ring(ram[..], bufSize, writeIndex) && |data| < 0x1_0000_0000
      requires ring' == Shift(ring, data)
      modifies this`writeIndex, this`bytesWritten, this`lastBytesWritten, ram
      ensures old(bytesWritten) + |data| < 0x1_0000_0000 ==> Valid()
      ensures writeIndex < bufSize && Ring(ram[..], bufSize, writeIndex) == ring'
      ensures bytesWritten == CountAfter(old(bytesWritten), |data|, bufSize)
      ensures lastBytesWritten == Min(old(lastBytesWritten), bufSize - bytesWritten)
    {
      CopyRound(data, ring);
      CountAfterExact(bytesWritten, |data|, bufSize);
      bytesWritten := CountAfter(bytesWritten, |data|, bufSize);
      var others := bufSize - bytesWritten;
      if lastBytesWritten > others {
        lastBytesWritten := others;
      }
    }

    // ----- runs -----

    /** What the RAM and the 32-bit counts allow. */
    ghost predicate Possible(ev: Event) {
      match ev
      case AppInit(size, scratch) => 0 < size <= ram.Length && size < 0x8000_0000 && scratch < 0x1_0000_0000
      case Write(data) => |data| < 0x8000_0000
      case _ => true
    }

    /** Any run of boots, size changes and writes keeps the console holding what the log promises. */
    method RunEvents(evs: seq<Event>, ghost l: Log)
      requires Holds(l) && bufSize < 0x8000_0000
      requires forall k :: 0 <= k < |evs| ==> Possible(evs[k])
      modifies this, ram
      ensures Holds(Run(l, evs))
    {
      ghost var m := l;
      for k := 0 to |evs|
        invariant Holds(m) && bufSize < 0x8000_0000 && Run(m, evs[k..]) == Run(l, evs)
      {
        assert evs[k..][0] == evs[k] && evs[k..][1..] == evs[k + 1..];
        Perform(evs[k], m);
        m := Step(m, evs[k]);
      }
    }

    /** On the fields after any run: the bytes_written bytes ending at write_index are the newest of this boot, the
        last_bytes_written bytes ending at last_write_index an end of the previous boot's log, kept only while this
        boot's is whole, and the two never exceed the buffer. Without a change of size they are all that fits. */
    method Execute(evs: seq<Event>, ghost l: Log, ghost h: History)
      requires Holds(l) && bufSize < 0x8000_0000 && Faithful(h, l)
      requires forall k :: 0 <= k < |evs| ==> Possible(evs[k])
      modifies this, ram
      ensures Holds(Run(l, evs))
      ensures enabled == RecordAll(h, evs).on
      ensures Valid() && Promised(RecordAll(h, evs), bufSize,
        Window(ram[..], bufSize, writeIndex, bytesWritten), Window(ram[..], bufSize, lastWriteIndex, lastBytesWritten))
      ensures Complete(h, l) && SizeKept(evs, l.size) ==> FullyKept(RecordAll(h, evs), bufSize,
        Window(ram[..], bufSize, writeIndex, bytesWritten), Window(ram[..], bufSize, lastWriteIndex, lastBytesWritten))
    {
      RunEvents(evs, l);
      HoldsByIndex(Run(l, evs));
      RunFaithful(h, l, evs);
      if Complete(h, l) && SizeKept(evs, l.size) {
        RunComplete(h, l, evs);
      }
    }

    method Perform(ev: Event, ghost l: Log)
      requires Holds(l) && bufSize < 0x8000_0000 && Possible(ev)
      modifies this, ram
      ensures Holds(Step(l, ev)) && bufSize < 0x8000_0000
    {
      match ev {
        case Boot => InitBootloader(bufSize, l);
        case AppInit(size, scratch) => Init(size, scratch, l);
        case Enable => enabled := true;
        case Disable => enabled := false;
        case Write(data) => Write(data, l);
      }
    }

    // ----- booting -----

    /** init_ram_console. */
    method Reset(size: U32)
      requires 0 < size <= ram.Length
      modifies this`magic, this`writeIndex, this`bytesWritten, this`lastWriteIndex, this`lastBytesWritten, this`bufSize
      ensures Holds(Log(size, [], [], enabled))
    {
      magic := MAGIC;
      lastBytesWritten, lastWriteIndex := 0, 0;
      bytesWritten, writeIndex := 0, 0;
      bufSize := size;
    }

    /** nl_ram_console_init_bootloader. */
    method InitBootloader(size: U32, ghost l: Log)
      requires 0 < size <= ram.Length
      requires magic == MAGIC ==> Holds(l)
      modifies this
      ensures Holds(if old(magic) == MAGIC then Step(l, Boot) else Log(size, [], [], true)) && enabled
      ensures old(magic) == MAGIC ==>
        lastBytesWritten == old(bytesWritten) && lastWriteIndex == old(writeIndex) && bytesWritten == 0 && writeIndex == old(writeIndex)
    {
      if magic != MAGIC {
        Reset(size);
      } else {
        lastBytesWritten := bytesWritten;
        lastWriteIndex := writeIndex;
        bytesWritten := 0;
      }
      enabled := true;
    }

    /** nl_ram_console_init. `size` is the buffer size this image was built with. */
    method Init(size: U32, scratch: U32, ghost l: Log)
      requires 0 < size <= ram.Length
      requires magic == MAGIC ==> Holds(l) && bufSize < 0x8000_0000 && size < 0x8000_0000
      modifies this, ram
      ensures Holds(if old(magic) == MAGIC then Step(l, AppInit(size, scratch)) else Log(size, [], [], false))
      ensures !enabled && bufSize == size
    {
      if magic != MAGIC {
        Reset(size);
        enabled := false;
      } else if bufSize != size {
        ChangeSize(size, scratch, l);
        enabled := false;
      } else {
        enabled := false;
      }
    }

    /** The conversion of the buffer to another size. */
    method ChangeSize(size: U32, scratch: U32, ghost l: Log)
      requires 0 < size <= ram.Length && Holds(l) && bufSize < 0x8000_0000 && size < 0x8000_0000
      modifies this`magic, this`writeIndex, this`bytesWritten, this`lastWriteIndex, this`lastBytesWritten, this`bufSize, ram
      ensures Holds(Resize(l, size, scratch)) && bufSize == size
    {
      var keep := lastBytesWritten + bytesWritten;
      if keep > size {
        keep := size;
      }
      if keep > scratch {
        keep := scratch;
      }
      if keep == 0 {
        Reset(size);
      } else {
        Convert(keep, size, scratch, l);
      }
    }

    /** At least one byte is kept. */
    method Convert(keep: U32, size: U32, scratch: U32, ghost l: Log)
      requires 0 < size <= ram.Length && Holds(l) && bufSize < 0x8000_0000 && size < 0x8000_0000
      requires 0 < keep == Min(Min(lastBytesWritten + bytesWritten, size), scratch)
      modifies this`writeIndex, this`bytesWritten, this`lastWriteIndex, this`lastBytesWritten, this`bufSize, ram
      ensures Holds(Resize(l, size, scratch))
    {
      ghost var ring := Ring(ram[..], bufSize, writeIndex);
      ghost var kept := Slice(ring, bufSize - keep, bufSize);
      var count := if bytesWritten > keep then keep else bytesWritten;
      var last := if lastBytesWritten > keep - count then keep - count else lastBytesWritten;
      ResizeSlices(l, ring, bufSize, bytesWritten, lastBytesWritten, size, scratch, keep, count, last, kept);
      ghost var l' := Resize(l, size, scratch);
      MoveKept(keep, size, count, last, kept, l'.cur, l'.prev);
    }

    method MoveKept(keep: U32, size: U32, count: U32, last: U32, ghost newest: Text, ghost cur: Text, ghost prev: Text)
      requires Valid() && bufSize < 0x8000_0000 && size < 0x8000_0000 && 0 < keep <= bufSize && keep <= size <= ram.Length
      requires newest == Slice(Ring(ram[..], bufSize, writeIndex), bufSize - keep, bufSize)
      requires count + last == keep && cur == Slice(newest, last, keep) && prev == Slice(newest, 0, last)
      modifies this`writeIndex, this`bytesWritten, this`lastWriteIndex, this`lastBytesWritten, this`bufSize, ram
      ensures Valid() && bufSize == size && bytesWritten == count && lastBytesWritten == last
      ensures CurIs(cur, Ring(ram[..], size, writeIndex), size, count)
      ensures PrevIs(prev, Ring(ram[..], size, writeIndex), size, count, last)
    {
      var kept := TakeNewest(keep);
      PutBack(kept, size, count, last, cur, prev);
    }

    /** Copies the newest bytes out, in one or two pieces. */
    method TakeNewest(keep: U32) returns (kept: Text)
      requires Valid() && bufSize < 0x8000_0000 && 0 < keep <= bufSize
      ensures kept == Slice(Ring(ram[..], bufSize, writeIndex), bufSize - keep, bufSize)
    {
      WrapBackExact(writeIndex, keep, bufSize);
      var start := WrapBack(writeIndex, keep, bufSize);
      kept := CopyOut(start, keep);
      CopiedIsNewest(ram[..], bufSize, writeIndex, keep);
    }

    method CopyOut(start: U32, keep: U32) returns (kept: Text)
      requires start < bufSize <= ram.Length && keep <= bufSize
      ensures kept == Copied(ram[..], bufSize, start, keep)
    {
      var untilEnd := bufSize - start;
      if untilEnd > keep {
        kept := ram[start..start + keep];
      } else {
        kept := ram[start..bufSize] + ram[..keep - untilEnd];
      }
    }

    /** Puts the kept bytes at the start of the buffer of the new size and sets the indices. */
    method PutBack(kept: Text, size: U32, count: U32, last: U32, ghost cur: Text, ghost prev: Text)
      requires magic == MAGIC && 0 < |kept| <= size <= ram.Length && size < 0x8000_0000
      requires count + last == |kept| && cur == Slice(kept, last, |kept|) && prev == Slice(kept, 0, last)
      modifies this`writeIndex, this`bytesWritten, this`lastWriteIndex, this`lastBytesWritten, this`bufSize, ram
      ensures Valid() && bufSize == size && bytesWritten == count && lastBytesWritten == last
      ensures CurIs(cur, Ring(ram[..], size, writeIndex), size, count)
      ensures PrevIs(prev, Ring(ram[..], size, writeIndex), size, count, last)
    {
      CopyIn(0, kept);
      SetIndices(|kept|, size, count, last);
      PutBackRing(ram[..], size, writeIndex, kept);
      CutKept(Ring(ram[..], size, writeIndex), size, kept, count, last);
    }

    method SetIndices(keep: U32, size: U32, count: U32, last: U32)
      requires magic == MAGIC && 0 < keep <= size <= ram.Length && size < 0x8000_0000 && count + last == keep
      modifies this`writeIndex, this`bytesWritten, this`lastWriteIndex, this`lastBytesWritten, this`bufSize
      ensures Valid() && bufSize == size && bytesWritten == count && lastBytesWritten == last
      ensures writeIndex == if keep == size then 0 else keep
    {
      bufSize := size;
      writeIndex := if keep == size then 0 else keep;
      bytesWritten := count;
      if last > 0 {
        WrapBackExact(writeIndex, count, size);
        lastBytesWritten := last;
        lastWriteIndex := WrapBack(writeIndex, count, size);
      } else {
        lastBytesWritten, lastWriteIndex := 0, 0;
      }
    }
  }

  /** The bytes from `start` on, in two pieces if they pass the end of the buffer. */
  function Copied(buf: Text, size: nat, start: nat, keep: nat): (r: Text)
    requires start < size <= |buf| && keep <= size
    ensures |r| == keep
  {
    if size - start > keep then buf[start..start + keep] else buf[start..size] + buf[..keep - (size - start)]
  }

  lemma {:induction false} CopiedAt(buf: Text, size: nat, start: nat, keep: nat, k: nat)
    requires start < size <= |buf| && k < keep <= size
    ensures Copied(buf, size, start, keep)[k] == buf[Forward(start, k, size)]
  {
  }

  lemma {:induction false} CopiedIsNewest(buf: Text, size: nat, end: nat, keep: nat)
    requires end < size <= |buf| && 0 < keep <= size
    ensures Copied(buf, size, Back(end, keep, size), keep) == Slice(Ring(buf, size, end), size - keep, size)
  {
    var start := Back(end, keep, size);
    var r, s := Copied(buf, size, start, keep), Slice(Ring(buf, size, end), size - keep, size);
    forall k | 0 <= k < keep ensures r[k] == s[k] {
      CopiedAt(buf, size, start, keep, k);
      SliceAt(Ring(buf, size, end), size - keep, size, k);
      RingAt(buf, size, end, size - keep + k);
    }
  }

  /** The ring of the converted buffer ends in the kept bytes. */
  lemma {:induction false} PutBackRing(buf: Text, size: nat, end: nat, kept: Text)
    requires 0 < |kept| <= size <= |buf| && end == if |kept| == size then 0 else |kept|
    requires forall k :: 0 <= k < |kept| ==> buf[k] == kept[k]
    ensures kept == Slice(Ring(buf, size, end), size - |kept|, size)
  {
    var ring := Ring(buf, size, end);
    var newest := Slice(ring, size - |kept|, size);
    forall k | 0 <= k < |kept| ensures newest[k] == kept[k] {
      SliceAt(ring, size - |kept|, size, k);
    }
  }

  /** Cutting the kept bytes cuts the ring they end. */
  lemma {:induction false} CutKept(ring: Text, size: nat, kept: Text, count: nat, last: nat)
    requires |ring| == size && |kept| <= size && kept == Slice(ring, size - |kept|, size)
    requires count + last == |kept|
    ensures CurIs(Slice(kept, last, |kept|), ring, size, count)
    ensures PrevIs(Slice(kept, 0, last), ring, size, count, last)
  {
    SliceSlice(ring, size - |kept|, size, last, |kept|);
    SliceSlice(ring, size - |kept|, size, 0, last);
  }

  lemma {:induction false} SliceSlice(s: Text, a: nat, b: nat, i: nat, j: nat)
    requires a <= b <= |s| && i <= j <= b - a
    ensures Slice(Slice(s, a, b), i, j) == Slice(s, a + i, a + j)
  {
    var t, u := Slice(Slice(s, a, b), i, j), Slice(s, a + i, a + j);
    forall k | 0 <= k < j - i ensures t[k] == u[k] {
      SliceAt(Slice(s, a, b), i, j, k);
      SliceAt(s, a, b, i + k);
      SliceAt(s, a + i, a + j, k);
    }
  }

  lemma {:induction false} LastSlice(s: Text, a: nat, b: nat, n: nat)
    requires a <= b <= |s| && n <= b - a
    ensures Last(Slice(s, a, b), n) == Slice(s, b - n, b)
  {
    forall k | 0 <= k < n ensures Last(Slice(s, a, b), n)[k] == Slice(s, b - n, b)[k] {
      LastAt(Slice(s, a, b), n, k);
      SliceAt(s, a, b, b - a - n + k);
      SliceAt(s, b - n, b, k);
    }
  }

  /** The kept bytes, cut at the new counts, are the logs of the converted console. */
  lemma {:induction false} ResizeSlices(l: Log, ring: Text, was: nat, count: nat, last: nat,
                                        size: nat, scratch: nat, keep: nat, count': nat, last': nat, kept: Text)
    requires CurIs(l.cur, ring, was, count) && PrevIs(l.prev, ring, was, count, last)
    requires keep == Min(Min(last + count, size), scratch)
    requires count' == Min(count, keep) && last' == Min(last, keep - count')
    requires kept == Slice(ring, was - keep, was)
    ensures count' + last' == keep
    ensures Resize(l, size, scratch).cur == Slice(kept, last', keep)
    ensures Resize(l, size, scratch).prev == Slice(kept, 0, last')
  {
    ResizeIs(l, size, scratch, keep, count');
    ResizeCur(ring, was, count, keep, count', last');
    ResizePrev(ring, was, count, last, keep, count', last');
  }

  lemma {:induction false} ResizeCur(ring: Text, was: nat, count: nat, keep: nat, count': nat, last': nat)
    requires |ring| == was && count <= was && keep <= was && count' <= count && count' + last' == keep
    ensures Last(Slice(ring, was - count, was), count') == Slice(Slice(ring, was - keep, was), last', keep)
  {
    SliceSlice(ring, was - keep, was, last', keep);
    LastSlice(ring, was - count, was, count');
  }

  lemma {:induction false} ResizePrev(ring: Text, was: nat, count: nat, last: nat, keep: nat, count': nat, last': nat)
    requires |ring| == was && count + last <= was && keep <= was && count' + last' == keep && last' <= last
    requires last' > 0 ==> count' == count
    ensures Last(Slice(ring, was - count - last, was - count), last') == Slice(Slice(ring, was - keep, was), 0, last')
  {
    if last' > 0 {
      SliceSlice(ring, was - keep, was, 0, last');
      LastSlice(ring, was - count - last, was - count, last');
    }
  }

  lemma {:induction false} ResizeIs(l: Log, size: nat, scratch: nat, keep: nat, count': nat)
    requires keep == Min(Min(|l.prev| + |l.cur|, size), scratch) && count' == Min(|l.cur|, keep)
    ensures Resize(l, size, scratch).cur == Last(l.cur, count')
    ensures Resize(l, size, scratch).prev == Last(l.prev, keep - count')
  {
  }

  /** s[i..j], element by element (see SliceAt). */
  function Slice(s: Text, i: nat, j: nat): (r: Text)
    requires i <= j <= |s|
    ensures |r| == j - i
    decreases j - i
  {
    if i == j then [] else [s[i]] + Slice(s, i + 1, j)
  }

  lemma {:induction false} SliceAt(s: Text, i: nat, j: nat, k: nat)
    requires i <= j <= |s| && k < j - i
    ensures Slice(s, i, j)[k] == s[i + k]
    decreases j - i
  {
    if k > 0 {
      SliceAt(s, i + 1, j, k - 1);
    }
  }

  /** `cur` is the newest part of the ring. */
  predicate CurIs(cur: Text, ring: Text, size: nat, count: nat) {
    |ring| == size && count <= size && cur == Slice(ring, size - count, size)
  }

  /** `prev` is the part of the ring just before its newest `count` bytes. */
  predicate PrevIs(prev: Text, ring: Text, size: nat, count: nat, last: nat) {
    |ring| == size && count + last <= size && prev == Slice(ring, size - count - last, size - count)
  }

  /** The end of the shifted ring, at the new count, is this boot's log. */
  lemma {:induction false} AppendCur(ring: Text, size: nat, cur: Text, data: Text, count: nat, count': nat)
    requires CurIs(cur, ring, size, count) && size > 0 && count' == Min(count + |data|, size)
    ensures CurIs(Last(cur + data, size), Shift(ring, data), size, count')
  {
    var r, s := Last(cur + data, size), Slice(Shift(ring, data), size - count', size);
    forall k | 0 <= k < count' ensures r[k] == s[k] {
      LastAt(cur + data, size, k);
      SliceAt(Shift(ring, data), size - count', size, k);
      ShiftAt(ring, data, size - count' + k);
      var m := count + |data| - count' + k;
      if m < count {
        SliceAt(ring, size - count, size, m);
      }
    }
  }

  /** What is before it is the end of the previous log, as far as there is room. */
  lemma {:induction false} AppendPrev(ring: Text, size: nat, prev: Text, data: Text, count: nat, last: nat, count': nat, last': nat)
    requires PrevIs(prev, ring, size, count, last) && size > 0
    requires count' == Min(count + |data|, size) && last' == Min(last, size - count')
    ensures PrevIs(Last(prev, size - count'), Shift(ring, data), size, count', last')
  {
    var r, s := Last(prev, size - count'), Slice(Shift(ring, data), size - count' - last', size - count');
    forall k | 0 <= k < last' ensures r[k] == s[k] {
      LastAt(prev, size - count', k);
      SliceAt(Shift(ring, data), size - count' - last', size - count', k);
      ShiftAt(ring, data, size - count' - last' + k);
      SliceAt(ring, size - count - last, size - count, last - last' + k);
    }
  }

  lemma {:induction false} AppendSlices(ring: Text, size: nat, l: Log, data: Text, count: nat, last: nat, count': nat, last': nat)
    requires CurIs(l.cur, ring, size, count) && PrevIs(l.prev, ring, size, count, last) && l.size == size > 0
    requires count' == Min(count + |data|, size) && last' == Min(last, size - count')
    ensures CurIs(Append(l, data).cur, Shift(ring, data), size, count')
    ensures PrevIs(Append(l, data).prev, Shift(ring, data), size, count', last')
  {
    AppendCur(ring, size, l.cur, data, count, count');
    AppendPrev(ring, size, l.prev, data, count, last, count', last');
    AppendIs(l, data, size, count');
  }

  lemma {:induction false} AppendIs(l: Log, data: Text, size: nat, count': nat)
    requires l.size == size && |l.cur| <= size && count' == Min(|l.cur| + |data|, size)
    ensures Append(l, data).cur == Last(l.cur + data, size)
    ensures Append(l, data).prev == Last(l.prev, size - count')
  {
  }

  /** Feeds bytes into a ring one at a time, each pushing out the oldest. */
  function Shift(ring: Text, data: Text): (r: Text)
    requires ring != []
    ensures |r| == |ring|
    decreases |data|
  {
    if data == [] then ring else Shift(ring[1..] + [data[0]], data[1..])
  }

  lemma {:induction false} ShiftSplit(ring: Text, data: Text, n: nat)
    requires ring != [] && n <= |data| && n <= |ring|
    ensures Shift(ring, data) == Shift(ring[n..] + data[..n], data[n..])
    decreases n
  {
    if n == 0 {
      assert ring[0..] + data[..0] == ring;
    } else {
      ShiftSplit(ring[1..] + [data[0]], data[1..], n - 1);
      assert (ring[1..] + [data[0]])[n - 1..] + data[1..][..n - 1] == ring[n..] + data[..n];
    }
  }

  lemma {:induction false} ShiftAt(ring: Text, data: Text, k: nat)
    requires ring != [] && k < |ring|
    ensures Shift(ring, data)[k] == (ring + data)[|data| + k]
    decreases |data|
  {
    if data != [] {
      ShiftAt(ring[1..] + [data[0]], data[1..], k);
    }
  }
}
