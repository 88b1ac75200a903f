/**
  The file layer over the flash driver: a file is one partition; opening it for writing erases it,
  closing it flushes the driver's cache.
 */
module Nlfs {
  import opened Words
  import opened Nor
  import opened SpiFlash

  datatype Mode = ReadOnly | WriteOnly

  /** An entry of the partition table. */
  datatype Partition = Partition(offset: U32, size: U32, readOnly: bool)

  /** How many bytes a call transfers: what is asked for, cut at the end of the file. The comparison
      is done on a 32-bit sum. */
  function Cut(pos: U32, len: U32, bytes: U32): (r: U32)
    requires pos <= len
    ensures r <= bytes
  {
    if Add32(pos, bytes) > len then len - pos else bytes
  }

  /** The cut is right exactly when the sum does not wrap. */
  lemma {:induction false} CutExact(pos: U32, len: U32, bytes: U32)
    requires pos <= len
    ensures Cut(pos, len, bytes) == Min(bytes, len - pos) <==> pos + bytes < 0x1_0000_0000
  {
  }

  /** In a partition inside a chip smaller than 2^32 bytes, a request that is not cut right runs past the chip. */
  lemma {:induction false} CutInChip(offset: nat, pos: U32, len: U32, bytes: U32, chip: nat)
    requires pos <= len && offset + len <= chip < 0x1_0000_0000
    ensures offset + pos + Cut(pos, len, bytes) <= chip <==> pos + bytes < 0x1_0000_0000
    ensures pos + bytes < 0x1_0000_0000 ==> Cut(pos, len, bytes) == Min(bytes, len - pos)
  {
    CutExact(pos, len, bytes);
  }

  /** At position 16 of a 32-byte file, a request for 2^32 - 8 bytes is not cut at all. */
  lemma {:induction false} CutMisses()
    ensures Cut(16, 32, 0xFFFF_FFF8) == 0xFFFF_FFF8
  {
  }

  predicate ShownAt(chip: Chip, offset: nat, content: seq<Byte>, i: nat)
    requires offset <= i < |chip|
  {
    chip[i] == if i - offset < |content| then content[i - offset] else 0xFF
  }

  /** The partition shows `content` followed by erased bytes. */
  ghost predicate Shows(chip: Chip, offset: nat, len: nat, content: seq<Byte>) {
    && |content| <= len && offset + len <= |chip|
    && forall i :: offset <= i < offset + len ==> ShownAt(chip, offset, content, i)
  }

  lemma {:induction false} ShownMore(chip: Chip, offset: nat, content: seq<Byte>, data: seq<Byte>, i: nat)
    requires offset <= i < |chip| && ShownAt(chip, offset, content, i)
    ensures ShownAt(Burn(chip, Cells(offset + |content|, data)), offset, content + data, i)
  {
    var addr := offset + |content|;
    BurnAt(chip, addr, data, i);
    if addr <= i < addr + |data| {
      BurnBlank(chip, addr, data, i);
    }
  }

  lemma {:induction false} ShowsMore(chip: Chip, offset: nat, len: nat, content: seq<Byte>, data: seq<Byte>)
    requires Shows(chip, offset, len, content) && |content| + |data| <= len
    ensures Shows(Burn(chip, Cells(offset + |content|, data)), offset, len, content + data)
  {
    var r, all := Burn(chip, Cells(offset + |content|, data)), content + data;
    forall i | offset <= i < offset + len ensures ShownAt(r, offset, all, i) {
      ShownMore(chip, offset, content, data, i);
    }
  }

  lemma {:induction false} ShowsAfter(origin: Chip, t: seq<Cell>, offset: nat, len: nat, content: seq<Byte>, data: seq<Byte>)
    requires Shows(Burn(origin, t), offset, len, content) && |content| + |data| <= len
    ensures Shows(Burn(origin, t + Cells(offset + |content|, data)), offset, len, content + data)
  {
    BurnConcat(origin, t, Cells(offset + |content|, data));
    ShowsMore(Burn(origin, t), offset, len, content, data);
  }

  /** What a file of `len` bytes holds after `content` was written to it. */
  function Image(content: seq<Byte>, len: nat): (r: seq<Byte>)
    ensures |r| == len
  {
    seq(len, j requires 0 <= j < len => if j < |content| then content[j] else 0xFF)
  }

  lemma {:induction false} ShowsErased(chip: Chip, offset: nat, len: nat)
    requires offset + len <= |chip|
    ensures Shows(Erased(chip, offset, len), offset, len, [])
  {
    var r := Erased(chip, offset, len);
    forall i | offset <= i < offset + len ensures ShownAt(r, offset, [], i) {
    }
  }

  lemma {:induction false} ShowsRange(chip: Chip, offset: nat, len: nat, content: seq<Byte>, pos: nat, n: nat)
    requires Shows(chip, offset, len, content) && pos + n <= len
    ensures chip[offset + pos..offset + pos + n] == Image(content, len)[pos..pos + n]
  {
    var a, b := chip[offset + pos..offset + pos + n], Image(content, len)[pos..pos + n];
    forall k | 0 <= k < n ensures a[k] == b[k] {
      assert ShownAt(chip, offset, content, offset + pos + k);
    }
  }

  lemma {:induction false} Onto(origin: Chip, t: seq<Cell>, cells: seq<Cell>, chip: Chip, chip': Chip)
    requires chip == Burn(origin, t) && chip' == Burn(origin, t + cells)
    ensures chip' == Burn(chip, cells)
  {
    BurnConcat(origin, t, cells);
  }

  class File {
    const dev: Device
    var offset: U32
    var len: U32
    var currentPos: U32
    var mode: Mode
    var isOpen: bool

    constructor (dev: Device)
      ensures this.dev == dev && !isOpen
    {
      this.dev := dev;
      offset, len, currentPos, mode, isOpen := 0, 0, 0, ReadOnly, false;
    }

    /** The device's geometry and the partition are what the platform requires. */
    ghost predicate Fits(part: Partition)
      reads dev
    {
      && dev.Valid()
      && dev.sub > 0 && dev.sector > 0 && Multiple(dev.sector, dev.sub)
      && Multiple(part.offset, dev.sub) && Multiple(part.size, dev.sub)
      && part.offset + part.size <= |dev.chip| < 0x1_0000_0000
    }

    /** What nlfs_write_cb looks at: the file is marked open for writing. Nothing says that the open succeeded. */
    ghost predicate Writable()
      reads this, dev
    {
      && isOpen && mode == WriteOnly && dev.Valid()
      && currentPos <= len && offset + len <= |dev.chip| < 0x1_0000_0000
    }

    /** The file was opened for writing and will hold `content` once it is flushed. */
    ghost predicate Writing(content: seq<Byte>)
      reads this, dev, dev.cache
    {
      && Writable() && currentPos == |content|
      && dev.Continues(offset + currentPos)
      && Shows(Burn(dev.origin, dev.Taken()), offset, len, content)
    }

    /** The file is open for reading, and the chip holds `content` in its partition. */
    ghost predicate Reading(content: seq<Byte>)
      reads this, dev
    {
      && isOpen && mode == ReadOnly && currentPos <= len && |dev.chip| < 0x1_0000_0000
      && Shows(dev.chip, offset, len, content)
    }

    /** nlfs_open_cb for a main partition. `answers` are the results of the erase callback. */
    method Open(part: Partition, mode: Mode, installed: bool, answers: seq<bool>) returns (ok: bool)
      requires Fits(part) && dev.index == 0
      modifies this, dev`chip, dev`outcomes, dev`failures, dev`origin, dev`stream
      ensures Fits(part)
      ensures !installed ==> !ok && isOpen == old(isOpen) && dev.chip == old(dev.chip)
      ensures installed ==> isOpen && this.mode == mode && offset == part.offset && len == part.size && currentPos == 0
      ensures installed && mode == WriteOnly ==> Writable()
      ensures mode == WriteOnly && part.readOnly ==> !ok && dev.chip == old(dev.chip)
      ensures mode == ReadOnly ==> ok == installed && dev.chip == old(dev.chip)
      ensures !installed || mode == ReadOnly || part.readOnly ==>
                dev.chip == old(dev.chip) && dev.outcomes == old(dev.outcomes) && dev.origin == old(dev.origin) && dev.stream == old(dev.stream)
      ensures ok && mode == WriteOnly ==> Writing([]) && dev.stream == []
      ensures installed && !part.readOnly && old(dev.outcomes) == [] && answers == [] ==> ok && dev.outcomes == []
    {
      if !installed {
        return false;
      }
      currentPos, this.mode, isOpen := 0, mode, true;
      offset, len := part.offset, part.size;
      ok := true;
      if mode == WriteOnly {
        if part.readOnly {
          return false;
        }
        var retlen, blocks;
        ok, retlen, blocks := dev.Erase(offset, len, answers, 0);
        if ok && retlen != len {
          ok := false;
        }
        dev.NothingPending();
        if ok {
          ShowsErased(old(dev.chip), offset, len);
        }
      }
    }

    /** nlfs_write_cb. Returns how many bytes the driver took; `complete` tells whether it took all. The bytes go to
        the file's position whether or not the partition was erased, cut at its end, unless position plus count
        passes 2^32: then they are not cut and run past the chip. If the file was opened properly its content grows. */
    method Write(data: seq<Byte>, ghost content: seq<Byte>) returns (n: nat, inChip: bool, ghost complete: bool)
      requires |data| < 0x1_0000_0000 && (isOpen && mode == WriteOnly ==> Writable())
      modifies this`currentPos, dev`chip, dev`outcomes, dev`failures, dev`stream, dev`index, dev`writeLoc, dev.cache
      ensures !(isOpen && mode == WriteOnly) ==> inChip && n == 0 && dev.chip == old(dev.chip) && currentPos == old(currentPos)
      ensures isOpen && mode == WriteOnly ==> (inChip <==> old(currentPos) + |data| < 0x1_0000_0000)
      ensures isOpen && mode == WriteOnly && inChip ==>
                && n <= Min(|data|, len - old(currentPos)) && (complete ==> n == Min(|data|, len - old(currentPos)))
                && currentPos == old(currentPos) + n
      ensures isOpen && mode == WriteOnly && inChip && !old(dev.Loses(offset + currentPos, Min(|data|, len - currentPos))) ==>
                Writable() && dev.Taken() == old(dev.Taken()) + Cells(offset + old(currentPos), data[..n])
      ensures inChip && old(Writing(content)) ==> Writing(content + data[..n])
      ensures inChip && old(dev.outcomes) == [] ==> complete && dev.outcomes == []
      ensures inChip ==> complete == (dev.failures == old(dev.failures))
    {
      if !isOpen || mode != WriteOnly {
        return 0, true, true;
      }
      var bytes := Cut(currentPos, len, |data|);
      CutInChip(offset, currentPos, len, |data|, |dev.chip|);
      inChip := offset + currentPos + bytes <= |dev.chip|;
      if inChip {
        n, complete := PutFirst(data, bytes, content, dev.Taken(), Writing(content));
      } else {
        n, complete := 0, false;
      }
    }

    /** The first `bytes` bytes of the data. */
    method PutFirst(data: seq<Byte>, bytes: nat, ghost content: seq<Byte>, ghost t: seq<Cell>, ghost proper: bool)
      returns (n: nat, ghost complete: bool)
      requires Writable() && bytes <= |data| && bytes <= len - currentPos && dev.Taken() == t && (proper ==> Writing(content))
      modifies this`currentPos, dev`chip, dev`outcomes, dev`failures, dev`stream, dev`index, dev`writeLoc, dev.cache
      ensures n <= bytes && (complete ==> n == bytes) && currentPos == old(currentPos) + n
      ensures !old(dev.Loses(offset + currentPos, bytes)) ==>
                Writable() && dev.Taken() == t + Cells(offset + old(currentPos), data[..n])
      ensures proper ==> Writing(content + data[..n])
      ensures old(dev.outcomes) == [] ==> complete && dev.outcomes == []
      ensures complete == (dev.failures == old(dev.failures))
    {
      ghost var lost;
      n, complete, lost := Put(data[..bytes], content, t, proper);
      assert data[..bytes][..n] == data[..n];
    }

    /** Bytes that fit in the file; `lost` tells whether the driver lost what it had cached. */
    method Put(data: seq<Byte>, ghost content: seq<Byte>, ghost t: seq<Cell>, ghost proper: bool)
      returns (n: nat, ghost complete: bool, ghost lost: bool)
      requires Writable() && |data| <= len - currentPos && dev.Taken() == t && (proper ==> Writing(content))
      modifies this`currentPos, dev`chip, dev`outcomes, dev`failures, dev`stream, dev`index, dev`writeLoc, dev.cache
      ensures n <= |data| && (complete ==> n == |data|) && currentPos == old(currentPos) + n
      ensures lost == old(dev.Loses(offset + currentPos, |data|))
      ensures !lost ==> Writable() && dev.Taken() == t + Cells(offset + old(currentPos), data[..n])
      ensures proper ==> Writing(content + data[..n])
      ensures old(dev.outcomes) == [] ==> complete && dev.outcomes == []
      ensures complete == (dev.failures == old(dev.failures))
    {
      ghost var pos := currentPos;
      n, complete, lost := Hand(data, t);
      if proper {
        Grown(content, data[..n], t, pos);
      }
    }

    lemma {:induction false} Grown(content: seq<Byte>, data: seq<Byte>, t: seq<Cell>, pos: nat)
      requires Writable() && pos == |content| && currentPos == pos + |data| && dev.Continues(offset + currentPos)
      requires dev.Taken() == t + Cells(offset + pos, data) && Shows(Burn(dev.origin, t), offset, len, content)
      ensures Writing(content + data)
    {
      ShowsAfter(dev.origin, t, offset, len, content, data);
      IsWriting(content + data, t + Cells(offset + pos, data));
    }

    lemma {:induction false} IsWriting(content: seq<Byte>, t: seq<Cell>)
      requires Writable() && currentPos == |content| && dev.Continues(offset + currentPos)
      requires dev.Taken() == t && Shows(Burn(dev.origin, t), offset, len, content)
      ensures Writing(content)
    {
    }

    /** Hands the bytes to the driver and moves the position past those it took. Bytes that continue the cached ones
        lose nothing. */
    method Hand(data: seq<Byte>, ghost t: seq<Cell>) returns (n: nat, ghost complete: bool, ghost lost: bool)
      requires Writable() && |data| <= len - currentPos && dev.Taken() == t
      modifies this`currentPos, dev`chip, dev`outcomes, dev`failures, dev`stream, dev`index, dev`writeLoc, dev.cache
      ensures n <= |data| && (complete ==> n == |data|) && currentPos == old(currentPos) + n
      ensures lost == old(dev.Loses(offset + currentPos, |data|))
      ensures !lost ==> Writable() && dev.Taken() == t + Cells(offset + old(currentPos), data[..n])
      ensures old(dev.Continues(offset + currentPos)) ==> !lost && dev.Continues(offset + currentPos)
      ensures old(dev.outcomes) == [] ==> complete && dev.outcomes == []
      ensures complete == (dev.failures == old(dev.failures))
    {
      lost := dev.Loses(offset + currentPos, |data|);
      complete, n := dev.WriteAt(offset + currentPos, data, t);
      currentPos := currentPos + n;
    }

    /** nlfs_close. A file open for reading stays marked open. */
    method Close(ghost content: seq<Byte>) returns (ok: bool)
      requires isOpen && mode == WriteOnly ==> dev.Valid()
      modifies this`isOpen, dev`chip, dev`outcomes, dev`failures, dev`stream, dev`index, dev`writeLoc, dev.cache
      ensures !old(isOpen) ==> !ok && !isOpen && dev.chip == old(dev.chip)
      ensures old(isOpen) && mode == ReadOnly ==> ok && isOpen && dev.chip == old(dev.chip)
      ensures old(isOpen) && mode == WriteOnly ==>
                && isOpen == !ok && dev.Valid()
                && (ok ==> dev.index == 0 && dev.stream == old(dev.Taken()))
                && (old(dev.outcomes) == [] ==> ok && dev.outcomes == [])
                && ok == (dev.failures == old(dev.failures))
      ensures old(Writing(content)) ==> if ok then Shows(dev.chip, offset, len, content) else Writing(content)
    {
      if !isOpen {
        return false;
      }
      ok := true;
      if mode == WriteOnly {
        ok := dev.Flush();
        if ok {
          dev.NothingPending();
          isOpen := false;
        }
      }
    }

    /** nlfs_read_cb, with a read command that works. A request is cut at the end of the file unless position plus
        count passes 2^32, which runs past the chip. */
    method Read(bytes: U32, ghost content: seq<Byte>) returns (data: Option<seq<Byte>>, inChip: bool)
      requires isOpen && mode == ReadOnly ==> Reading(content)
      modifies this`currentPos
      ensures inChip <==> !(isOpen && mode == ReadOnly) || old(currentPos) + bytes < 0x1_0000_0000
      ensures data.Some? == (isOpen && mode == ReadOnly && inChip)
      ensures data.None? ==> currentPos == old(currentPos)
      ensures data.Some? ==>
                && Reading(content)
                && currentPos == Min(old(currentPos) + bytes, len)
                && data.value == Image(content, len)[old(currentPos)..currentPos]
    {
      if !isOpen || mode != ReadOnly {
        return None, true;
      }
      var n := Cut(currentPos, len, bytes);
      CutInChip(offset, currentPos, len, bytes, |dev.chip|);
      var from := offset + currentPos;
      if from + n > |dev.chip| {
        return None, false;
      }
      inChip := true;
      data := Some(dev.chip[from..from + n]);
      ShowsRange(dev.chip, offset, len, content, currentPos, n);
      currentPos := currentPos + n;
    }

    /** nlfs_seek: a file position is only ever moved inside the file. A relative move is a 32-bit sum, so one that
        wraps goes backwards. */
    method Seek(to: U32, fromStart: bool, ghost content: seq<Byte>) returns (ok: bool)
      requires isOpen && mode == ReadOnly ==> Reading(content)
      modifies this`currentPos
      ensures isOpen && mode == ReadOnly ==> Reading(content)
      ensures ok == (isOpen && mode == ReadOnly && (if fromStart then to else Add32(old(currentPos), to)) < len)
      ensures currentPos == if !ok then old(currentPos) else if fromStart then to else Add32(old(currentPos), to)
      ensures ok && !fromStart ==> (currentPos >= old(currentPos) <==> old(currentPos) + to < 0x1_0000_0000)
    {
      if !isOpen || mode != ReadOnly {
        return false;
      }
      if fromStart {
        if to >= len {
          return false;
        }
        currentPos := to;
      } else {
        if Add32(currentPos, to) >= len {
          return false;
        }
        currentPos := Add32(currentPos, to);
      }
      ok := true;
    }

    /** A partition marked read-only refuses to be opened for writing, but the file is left marked open, and a caller
        that goes on writes to it: the bytes are programmed over what is there. */
    method WriteAfterRefusal(part: Partition, data: seq<Byte>) returns (accepted: bool, n: nat)
      requires Fits(part) && dev.index == 0 && part.readOnly && dev.outcomes == [] && |data| <= part.size
      modifies this, dev, dev.cache
      ensures !accepted && n == |data|
      ensures dev.chip == Burn(old(dev.chip), Cells(part.offset, data))
      ensures dev.chip == old(dev.chip) <==> ClearsNothing(old(dev.chip), part.offset, data)
    {
      accepted := Open(part, WriteOnly, true, []);
      n := Overwrite(data);
      UnchangedExactly(old(dev.chip), part.offset, data);
    }

    /** Writes and closes with every command working: the bytes are programmed, whatever the partition holds. */
    method Overwrite(data: seq<Byte>) returns (n: nat)
      requires Writable() && |data| <= len - currentPos && dev.outcomes == [] && dev.index == 0
      modifies this, dev, dev.cache
      ensures n == |data| && dev.chip == Burn(old(dev.chip), Cells(old(offset + currentPos), data))
    {
      ghost var at, cells := offset + currentPos, Cells(offset + currentPos, data);
      ghost var origin, was, chip := dev.origin, dev.stream, dev.chip;
      dev.NothingPending();
      n := WriteAll(data);
      Onto(origin, was, cells, chip, dev.chip);
    }

    method WriteAll(data: seq<Byte>) returns (n: nat)
      requires Writable() && |data| <= len - currentPos && dev.outcomes == []
      modifies this, dev, dev.cache
      ensures n == |data| && dev.Valid() && dev.index == 0 && dev.origin == old(dev.origin)
      ensures dev.stream == old(dev.Taken()) + Cells(old(offset + currentPos), data)
    {
      ghost var t, at := dev.Taken(), offset + currentPos;
      var inChip;
      ghost var complete;
      n, inChip, complete := Write(data, []);
      assert data[..n] == data;
      assert dev.Taken() == t + Cells(at, data);
      var ok := Close([]);
    }

    // ----- the round trip -----

    method WriteChunk(chunk: seq<Byte>, ghost content: seq<Byte>) returns (ok: bool, ghost content': seq<Byte>)
      requires Writing(content) && |content| + |chunk| < 0x1_0000_0000
      modifies this`currentPos, dev`chip, dev`outcomes, dev`failures, dev`stream, dev`index, dev`writeLoc, dev.cache
      ensures Writing(content')
      ensures ok ==> content' == Extended(content, chunk, len)
      ensures old(dev.outcomes) == [] ==> ok && dev.outcomes == []
    {
      var room := len - currentPos;
      var n, inChip, complete := Write(chunk, content);
      ok := n == Min(|chunk|, room);
      content' := content + chunk[..n];
    }

    /** Writes the chunks one after the other. */
    method WriteChunks(chunks: seq<seq<Byte>>) returns (ok: bool)
      requires Writing([])
      requires forall k :: 0 <= k < |chunks| ==> len + |chunks[k]| < 0x1_0000_0000
      modifies this`currentPos, dev`chip, dev`outcomes, dev`failures, dev`stream, dev`index, dev`writeLoc, dev.cache
      ensures ok ==> Writing(Take([] + Joined(chunks), len))
      ensures old(dev.outcomes) == [] ==> ok && dev.outcomes == []
    {
      ok := true;
      ghost var content := [];
      for k := 0 to |chunks|
        invariant Writing(content) && Stored(content, chunks[k..], len) == Stored([], chunks, len)
        invariant old(dev.outcomes) == [] ==> dev.outcomes == []
      {
        assert chunks[k..][0] == chunks[k] && chunks[k..][1..] == chunks[k + 1..];
        ok, content := WriteChunk(chunks[k], content);
        if !ok {
          return;
        }
      }
      StoredIsTake([], chunks, len);
    }

    /** Reads chunks of the given sizes one after the other. */
    method ReadChunks(sizes: seq<U32>, ghost content: seq<Byte>) returns (back: seq<Byte>)
      requires Reading(content) && currentPos == 0
      requires forall k :: 0 <= k < |sizes| ==> len + sizes[k] < 0x1_0000_0000
      modifies this`currentPos
      ensures Reading(content) && back == Image(content, len)[..Min(Sum(sizes), len)]
    {
      back := [];
      for k := 0 to |sizes|
        invariant Reading(content) && currentPos == Min(Sum(sizes[..k]), len)
        invariant back == Image(content, len)[..currentPos]
      {
        ghost var pos := currentPos;
        var data, inChip := Read(sizes[k], content);
        SumSnoc(sizes, k);
        assert Image(content, len)[..pos] + Image(content, len)[pos..currentPos] == Image(content, len)[..currentPos];
        back := back + data.value;
      }
      assert sizes[..|sizes|] == sizes;
    }

    /** Open for writing, write in any chunks, close, open again, read in any chunks: what comes back is
        what was written, cut at the length of the partition, and then erased bytes. */
    method StoreThenLoad(part: Partition, chunks: seq<seq<Byte>>, sizes: seq<U32>, answers: seq<bool>)
      returns (ok: bool, back: seq<Byte>)
      requires Fits(part) && dev.index == 0
      requires forall k :: 0 <= k < |chunks| ==> part.size + |chunks[k]| < 0x1_0000_0000
      requires forall k :: 0 <= k < |sizes| ==> part.size + sizes[k] < 0x1_0000_0000
      modifies this, dev, dev.cache
      ensures !part.readOnly && old(dev.outcomes) == [] && answers == [] ==> ok
      ensures ok ==> back == Image(Take(Joined(chunks), part.size), part.size)[..Min(Sum(sizes), part.size)]
    {
      back := [];
      ok := Open(part, WriteOnly, true, answers);
      if !ok { return; }
      ok := WriteChunks(chunks);
      assert [] + Joined(chunks) == Joined(chunks);
      if !ok { return; }
      ghost var content := Take(Joined(chunks), part.size);
      ok := Close(content);
      if !ok { return; }
      ok := Open(part, ReadOnly, true, []);
      back := ReadChunks(sizes, content);
    }
  }

  function Take(s: seq<Byte>, n: nat): seq<Byte> {
    s[..Min(|s|, n)]
  }

  function Joined(chunks: seq<seq<Byte>>): seq<Byte> {
    if chunks == [] then [] else chunks[0] + Joined(chunks[1..])
  }

  /** The content after one more write, which is cut at the end of the file. */
  function Extended(content: seq<Byte>, chunk: seq<Byte>, len: nat): (r: seq<Byte>)
    requires |content| <= len
    ensures |r| <= len
  {
    content + chunk[..Min(|chunk|, len - |content|)]
  }

  function Stored(content: seq<Byte>, chunks: seq<seq<Byte>>, len: nat): (r: seq<Byte>)
    requires |content| <= len
    decreases |chunks|
  {
    if chunks == [] then content else Stored(Extended(content, chunks[0], len), chunks[1..], len)
  }

  /** Cutting every write at the end of the file is cutting all of it once. */
  lemma {:induction false} StoredIsTake(content: seq<Byte>, chunks: seq<seq<Byte>>, len: nat)
    requires |content| <= len
    ensures Stored(content, chunks, len) == Take(content + Joined(chunks), len)
    decreases |chunks|
  {
    if chunks == [] {
      assert content + [] == content;
    } else {
      StoredIsTake(Extended(content, chunks[0], len), chunks[1..], len);
      TakeAgain(content, chunks[0], Joined(chunks[1..]), len);
    }
  }

  lemma {:induction false} TakeAgain(a: seq<Byte>, b: seq<Byte>, c: seq<Byte>, len: nat)
    requires |a| <= len
    ensures Take(Extended(a, b, len) + c, len) == Take(a + (b + c), len)
  {
    if |b| <= len - |a| {
      assert Extended(a, b, len) == a + b;
      assert (a + b) + c == a + (b + c);
    } else {
      assert |Extended(a, b, len)| == len;
    }
  }

  function Sum(sizes: seq<U32>): nat {
    if sizes == [] then 0 else Sum(sizes[..|sizes| - 1]) + sizes[|sizes| - 1]
  }

  lemma {:induction false} SumSnoc(sizes: seq<U32>, k: nat)
    requires k < |sizes|
    ensures Sum(sizes[..k + 1]) == Sum(sizes[..k]) + sizes[k]
  {
    assert sizes[..k + 1][..k] == sizes[..k];
  }
}
