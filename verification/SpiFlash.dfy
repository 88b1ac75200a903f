/**
  The SPI NOR flash driver: page programming with and without the partial-page write-back cache,
  and the erase plan.
 */
module SpiFlash {
  import opened Words
  import opened Nor

  class Device {
    const page: nat               // FLASH_SPI_WRITE_SIZE
    const sub: nat                // FLASH_SPI_ERASE_SIZE
    const sector: nat             // FLASH_SPI_FAST_ERASE_SIZE
    var chip: Chip                // the flash array
    var outcomes: seq<bool>       // whether the coming commands will succeed; then all do

    var cache: array<Byte>        // partial_page
    var index: nat                // partial_page_index
    var writeLoc: nat             // write_loc

    ghost var failures: nat       // how many program commands have failed
    ghost var origin: Chip        // the flash array after the last erase
    ghost var stream: seq<Cell>   // the bytes that commands have programmed since, in order

    /** What the cache holds is a run of bytes from write_loc up to partial_page_index in one page;
        when it holds nothing, write_loc is the start of a page. */
    ghost predicate Valid()
      reads this
    {
      && page > 0 && cache.Length == page && Logged()
      && (index == 0 ==> Offset(writeLoc, page) == 0)
      && (index > 0 ==> Offset(writeLoc, page) < index <= page)
    }

    /** The chip holds what has been programmed since the last erase. */
    ghost predicate Logged()
      reads this
    {
      page > 0 && chip == Burn(origin, stream)
    }

    /** Accepted bytes that are still only in the cache. */
    ghost function Pending(): (r: seq<Cell>)
      reads this, cache
      requires page > 0
    {
      if Offset(writeLoc, page) < index <= cache.Length then Cells(writeLoc, cache[Offset(writeLoc, page)..index]) else []
    }

    /** Every byte accepted so far: programmed, then cached. */
    ghost function Taken(): (r: seq<Cell>)
      reads this, cache
      requires page > 0
    {
      stream + Pending()
    }

    constructor (page: nat, sub: nat, sector: nat, chip: Chip, outcomes: seq<bool>)
      requires page > 0
      ensures Valid() && index == 0 && writeLoc == 0 && origin == chip && stream == [] && fresh(cache)
      ensures this.page == page && this.sub == sub && this.sector == sector
      ensures this.chip == chip && this.outcomes == outcomes
    {
      this.page, this.sub, this.sector, this.chip, this.outcomes := page, sub, sector, chip, outcomes;
      cache := new Byte[page](_ => 0xFF);
      index, writeLoc, origin, stream := 0, 0, chip, [];
    }

    /** Whether the next command will succeed. */
    predicate NextOk()
      reads this
    {
      outcomes == [] || outcomes[0]
    }

    /** write_internal: one page-program command and the wait for it to finish. A command must not
        cross a page boundary: the chip would wrap to the start of the page. */
    method ProgramPage(addr: nat, data: seq<Byte>) returns (ok: bool)
      requires Logged() && Offset(addr, page) + |data| <= page
      modifies this`chip, this`outcomes, this`failures, this`stream
      ensures Logged() && ok == old(NextOk())
      ensures stream == if ok then old(stream) + Cells(addr, data) else old(stream)
      ensures !ok ==> chip == old(chip) && old(outcomes) != [] && outcomes == old(outcomes)[1..]
      ensures old(outcomes) == [] ==> ok && outcomes == []
      ensures failures >= old(failures) && ok == (failures == old(failures))
    {
      ok := NextOk();
      outcomes := if outcomes == [] then [] else outcomes[1..];
      failures := failures + if ok then 0 else 1;
      if ok {
        BurnConcat(origin, stream, Cells(addr, data));
        chip := Burn(chip, Cells(addr, data));
        stream := stream + Cells(addr, data);
      }
    }

    /** Programs a page's bytes; `t` is the stream if that works. */
    method ProgramTo(addr: nat, data: seq<Byte>, ghost t: seq<Cell>) returns (ok: bool)
      requires Logged() && Offset(addr, page) + |data| <= page && t == stream + Cells(addr, data)
      modifies this`chip, this`outcomes, this`failures, this`stream
      ensures Logged() && stream == if ok then t else old(stream)
      ensures old(outcomes) == [] ==> ok && outcomes == []
      ensures failures >= old(failures) && ok == (failures == old(failures))
    {
      ok := ProgramPage(addr, data);
    }

    /** Programs the whole page at data[n..]. */
    method ProgramNext(addr: nat, data: seq<Byte>, n: nat, ghost was: seq<Cell>) returns (ok: bool)
      requires Logged() && n + page <= |data| && Offset(addr + n, page) == 0
      requires stream == was + Cells(addr, data[..n])
      modifies this`chip, this`outcomes, this`failures, this`stream
      ensures Logged() && (ok ==> Offset(addr + n + page, page) == 0)
      ensures ok ==> stream == was + Cells(addr, data[..n + page])
      ensures !ok ==> stream == old(stream)
      ensures old(outcomes) == [] ==> ok && outcomes == []
      ensures failures >= old(failures) && ok == (failures == old(failures))
    {
      TakeMore(was, addr, data, n, n + page);
      OffsetAdd(addr + n, page, page);
      ok := ProgramTo(addr + n, data[n..n + page], was + Cells(addr, data[..n + page]));
    }

    /** Programs whole pages from a page boundary on, as long as that works. */
    method ProgramWhole(addr: nat, data: seq<Byte>) returns (ok: bool, n: nat)
      requires Logged() && Offset(addr, page) == 0
      modifies this`chip, this`outcomes, this`failures, this`stream
      ensures Logged() && n <= |data| && Offset(addr + n, page) == 0
      ensures stream == old(stream) + Cells(addr, data[..n])
      ensures ok ==> |data| - n < page
      ensures old(outcomes) == [] ==> ok && outcomes == []
      ensures failures >= old(failures) && ok == (failures == old(failures))
    {
      ok, n := true, 0;
      ghost var was := stream;
      while |data| - n >= page
        invariant 0 <= n <= |data| && Offset(addr + n, page) == 0
        invariant Logged() && stream == was + Cells(addr, data[..n])
        invariant old(outcomes) == [] ==> ok && outcomes == []
        invariant ok && failures == old(failures)
        decreases |data| - n
      {
        ok := ProgramNext(addr, data, n, was);
        if !ok {
          break;
        }
        n := n + page;
      }
    }

    /** Forgets the cached bytes. */
    method Reset()
      requires page > 0
      modifies this`index, this`writeLoc, cache
      ensures index == 0 && writeLoc == 0 && Pending() == []
    {
      writeLoc := 0;
      index := 0;
      forall i | 0 <= i < cache.Length {
        cache[i] := 0xFF;
      }
    }

    /** nlflash_spi_flush. */
    method Flush() returns (ok: bool)
      requires Valid()
      modifies this`chip, this`outcomes, this`failures, this`stream, this`index, this`writeLoc, cache
      ensures Valid() && ok == (old(index) == 0 || old(NextOk()))
      ensures Taken() == old(Taken())
      ensures ok ==> index == 0
      ensures old(index) == 0 ==> writeLoc == old(writeLoc) && stream == old(stream) && outcomes == old(outcomes)
      ensures !ok ==> stream == old(stream) && index == old(index) && writeLoc == old(writeLoc) && cache[..] == old(cache[..])
      ensures !ok ==> chip == old(chip) && old(outcomes) != [] && outcomes == old(outcomes)[1..]
      ensures old(outcomes) == [] ==> ok && outcomes == []
      ensures failures >= old(failures) && ok == (failures == old(failures))
    {
      if index == 0 {
        return true;
      }
      ghost var pending := Pending();
      var data := cache[Offset(writeLoc, page)..index];
      ok := ProgramPage(writeLoc, data);
      if ok {
        assert stream == old(stream) + pending;
        Reset();
        assert Offset(0, page) == 0;
        assert stream + [] == stream;
      } else {
        assert stream == old(stream);
      }
    }

    // ----- the buffered write, stage by stage -----

    /** The cache is ready for bytes at `addr`: empty and aimed there, or ending just before it. */
    ghost predicate Ready(addr: nat)
      reads this
    {
      && page > 0 && cache.Length == page && Logged()
      && if index == 0 then writeLoc == addr
         else Offset(writeLoc, page) < index <= page && addr == RoundDown(writeLoc, page) + index
    }

    /** The cache is empty, or the byte after its last one is the one for `addr`. */
    ghost predicate Continues(addr: nat)
      reads this
      requires page > 0
    {
      index == 0 || addr == RoundDown(writeLoc, page) + index
    }

    /** Lines 584-589: unless the bytes continue the cached page, flush it and take over the cache.
        If that flush fails the cache is aimed at the new address all the same. */
    method Acquire(addr: nat) returns (ok: bool)
      requires Valid()
      modifies this`chip, this`outcomes, this`failures, this`stream, this`index, this`writeLoc, cache
      ensures ok == !old(FlushFails(addr))
      ensures ok ==> Ready(addr) && Taken() == old(Taken())
      ensures !ok ==> stream == old(stream) && chip == old(chip) && writeLoc == addr && index == old(index) && cache[..] == old(cache[..])
      ensures !ok ==> old(outcomes) != [] && outcomes == old(outcomes)[1..]
      ensures old(index) == 0 ==> ok && stream == old(stream) && outcomes == old(outcomes)
      ensures old(outcomes) == [] ==> ok && outcomes == []
      ensures failures >= old(failures) && ok == (failures == old(failures))
    {
      ok := true;
      if addr != RoundDown(writeLoc, page) + index {
        ok := Flush();
        writeLoc := addr;
      }
    }

    /** The call must first flush other bytes, and that flush will fail. */
    ghost predicate FlushFails(addr: nat)
      reads this
      requires page > 0
    {
      index != 0 && addr != RoundDown(writeLoc, page) + index && !NextOk()
    }

    method CopyToCache(offset: nat, data: seq<Byte>)
      requires offset + |data| <= cache.Length
      modifies cache
      ensures cache[..] == old(cache[..])[..offset] + data + old(cache[..])[offset + |data|..]
    {
      forall i | 0 <= i < |data| {
        cache[offset + i] := data[i];
      }
    }

    /** Appends bytes to what the cache holds. */
    method Append(addr: nat, data: seq<Byte>, ghost t: seq<Cell>)
      requires Ready(addr) && Taken() == t && 0 < |data| && Offset(addr, page) + |data| <= page && index < page
      modifies this`index, cache
      ensures Valid() && index == Offset(addr, page) + |data|
      ensures Taken() == t + Cells(addr, data) && Continues(addr + |data|)
    {
      var offset := Offset(addr, page);
      ghost var start, had, was := Offset(writeLoc, page), Pending(), cache[..];
      ReadyOffset(addr);
      assert had == Cells(writeLoc, was[start..offset]);
      CopyToCache(offset, data);
      AppendCells(was, cache[..], start, offset, data, writeLoc, addr);
      index := offset + |data|;
      assert cache[..][start..index] == cache[start..index];
      Assoc(stream, had, Cells(addr, data));
    }

    /** The next free byte of the cache is the one for `addr`. */
    lemma {:induction false} ReadyOffset(addr: nat)
      requires Ready(addr) && index < page
      ensures Offset(writeLoc, page) <= Offset(addr, page)
      ensures index > 0 ==> Offset(addr, page) == index
      ensures addr == writeLoc + (Offset(addr, page) - Offset(writeLoc, page))
    {
      if index > 0 {
        RoundDownOffset(writeLoc, page);
        OffsetAdd(RoundDown(writeLoc, page), index, page);
      }
    }

    /** Lines 591-614: fill up the page the address is in, and flush a page that is complete. */
    method Fill(addr: nat, data: seq<Byte>, ghost t: seq<Cell>) returns (ok: bool, n: nat)
      requires Ready(addr) && Taken() == t && |data| > 0
      modifies this`chip, this`outcomes, this`failures, this`stream, this`index, this`writeLoc, cache
      ensures Valid() && n <= |data|
      ensures Taken() == t + Cells(addr, data[..n]) && Continues(addr + n)
      ensures ok && n < |data| ==> index == 0 && Offset(addr + n, page) == 0
      ensures |data| < page - Offset(addr, page) && Offset(addr, page) > 0 ==>
                ok && n == |data| && stream == old(stream) && outcomes == old(outcomes)
      ensures old(outcomes) == [] ==> ok && outcomes == []
      ensures failures >= old(failures) && ok == (failures == old(failures))
    {
      n := FillCache(addr, data, t);
      ok := true;
      if index == page {
        ok := Flush();
      }
    }

    /** If the address is inside a page, cache as many bytes as fit in it. */
    method FillCache(addr: nat, data: seq<Byte>, ghost t: seq<Cell>) returns (n: nat)
      requires Ready(addr) && Taken() == t && |data| > 0
      modifies this`index, cache
      ensures Valid() && n <= |data|
      ensures Taken() == t + Cells(addr, data[..n]) && Continues(addr + n)
      ensures n < |data| ==> Offset(addr + n, page) == 0 && (index == 0 || index == page)
      ensures Offset(addr, page) > 0 ==> n == Min(page - Offset(addr, page), |data|) && index == Offset(addr, page) + n
      ensures Offset(addr, page) == 0 ==> n == 0 && index == old(index)
    {
      if Offset(addr, page) > 0 {
        n := Min(page - Offset(addr, page), |data|);
        FillPart(addr, data[..n], t);
      } else {
        n := 0;
        AlignedValid(addr);
        TakeNone(t, addr, data);
      }
    }

    method FillPart(addr: nat, part: seq<Byte>, ghost t: seq<Cell>)
      requires Ready(addr) && Taken() == t && Offset(addr, page) > 0 && 0 < |part| <= page - Offset(addr, page)
      modifies this`index, cache
      ensures Valid() && Taken() == t + Cells(addr, part) && Continues(addr + |part|)
      ensures index == Offset(addr, page) + |part|
      ensures |part| == page - Offset(addr, page) ==> Offset(addr + |part|, page) == 0
    {
      FillRoom(addr);
      OffsetAdd(addr, |part|, page);
      Append(addr, part, t);
    }

    /** A page that is full ends where the next one starts. */
    lemma {:induction false} FillRoom(addr: nat)
      requires Ready(addr) && Offset(addr, page) > 0
      ensures index < page
    {
      if index > 0 {
        RoundDownOffset(writeLoc, page);
        OffsetAdd(RoundDown(writeLoc, page), index, page);
      }
    }

    lemma {:induction false} AlignedValid(addr: nat)
      requires Ready(addr) && Offset(addr, page) == 0
      ensures Valid() && (index == 0 || index == page)
    {
      if index > 0 {
        RoundDownOffset(writeLoc, page);
        OffsetAdd(RoundDown(writeLoc, page), index, page);
      }
    }

    /** Lines 616-636: whole pages go to the chip directly. */
    method WholePages(addr: nat, data: seq<Byte>, ghost t: seq<Cell>) returns (ok: bool, n: nat)
      requires Valid() && stream == t && index == 0 && Offset(addr, page) == 0
      modifies this`chip, this`outcomes, this`failures, this`stream, this`writeLoc
      ensures Valid() && index == 0 && n <= |data| && writeLoc == addr + n && Offset(addr + n, page) == 0
      ensures stream == t + Cells(addr, data[..n])
      ensures ok ==> |data| - n < page
      ensures old(outcomes) == [] ==> ok && outcomes == []
      ensures failures >= old(failures) && ok == (failures == old(failures))
    {
      ok, n := ProgramWhole(addr, data);
      writeLoc := addr + n;
    }

    /** The call loses bytes: the cache must be flushed first, the flush fails, and the cached bytes
        are then kept for another address. */
    ghost predicate Loses(addr: nat, len: nat)
      reads this
      requires page > 0
    {
      len > 0 && FlushFails(addr) && addr != writeLoc
    }

    /** nlflash_spi_write with FLASH_SPI_USE_PARTIAL_PAGE_BUFFER. */
    method Write(addr: nat, data: seq<Byte>) returns (ok: bool, written: nat)
      requires Valid()
      modifies this`chip, this`outcomes, this`failures, this`stream, this`index, this`writeLoc, cache
      ensures written <= |data| && (ok ==> written == |data|)
      ensures !old(Loses(addr, |data|)) ==>
                Valid() && Taken() == old(Taken()) + Cells(addr, data[..written])
      ensures old(Continues(addr)) ==> Continues(addr + written)
      ensures old(Loses(addr, |data|)) ==>
                && !ok && written == 0 && Taken() != old(Taken())
                && stream == old(stream) && chip == old(chip) && writeLoc == addr && index == old(index)
                && cache[..] == old(cache[..]) && old(outcomes) != [] && outcomes == old(outcomes)[1..]
      ensures old(index) == 0 && Offset(addr, page) > 0 && 0 < |data| < page - Offset(addr, page) ==>
                ok && stream == old(stream) && outcomes == old(outcomes)
      ensures old(outcomes) == [] ==> ok && outcomes == []
      ensures failures >= old(failures) && ok == (failures == old(failures))
    {
      if |data| == 0 {
        return true, 0;
      }
      ok := Acquire(addr);
      if !ok {
        Stale(addr, old(writeLoc), old(cache[..]));
        return false, 0;
      }
      ok, written := Place(addr, data, old(Taken()));
    }

    /** The same for callers that only ask what was taken. */
    method WriteAt(addr: nat, data: seq<Byte>, ghost t: seq<Cell>) returns (ok: bool, written: nat)
      requires Valid() && Taken() == t
      modifies this`chip, this`outcomes, this`failures, this`stream, this`index, this`writeLoc, cache
      ensures written <= |data| && (ok ==> written == |data|)
      ensures !old(Loses(addr, |data|)) ==> Valid() && |chip| == old(|chip|) && Taken() == t + Cells(addr, data[..written])
      ensures old(Continues(addr)) ==> Continues(addr + written)
      ensures old(outcomes) == [] ==> ok && outcomes == []
      ensures failures >= old(failures) && ok == (failures == old(failures))
    {
      ok, written := Write(addr, data);
    }

    /** The cache is ready for the data: fill its page, then the pages after it. */
    method Place(addr: nat, data: seq<Byte>, ghost t: seq<Cell>) returns (ok: bool, written: nat)
      requires Ready(addr) && Taken() == t && |data| > 0
      modifies this`chip, this`outcomes, this`failures, this`stream, this`index, this`writeLoc, cache
      ensures Valid() && written <= |data| && (ok ==> written == |data|)
      ensures Taken() == t + Cells(addr, data[..written]) && Continues(addr + written)
      ensures Offset(addr, page) > 0 && |data| < page - Offset(addr, page) ==>
                ok && stream == old(stream) && outcomes == old(outcomes)
      ensures old(outcomes) == [] ==> ok && outcomes == []
      ensures failures >= old(failures) && ok == (failures == old(failures))
    {
      ok, written := Fill(addr, data, t);
      if ok && written < |data| {
        NothingPending();
        ok, written := RestFrom(addr, data, written, t);
      }
    }

    /** The rest of the data, after its first `w` bytes. */
    method RestFrom(addr: nat, data: seq<Byte>, w: nat, ghost t: seq<Cell>) returns (ok: bool, written: nat)
      requires w <= |data| && Valid() && index == 0 && Offset(addr + w, page) == 0
      requires stream == t + Cells(addr, data[..w])
      modifies this`chip, this`outcomes, this`failures, this`stream, this`index, this`writeLoc, cache
      ensures Valid() && written <= |data| && (ok ==> written == |data|)
      ensures Taken() == t + Cells(addr, data[..written]) && Continues(addr + written)
      ensures old(outcomes) == [] ==> ok && outcomes == []
      ensures failures >= old(failures) && ok == (failures == old(failures))
    {
      var n;
      ok, n := Rest(addr + w, data[w..], stream);
      TakeRest(t, addr, data, w, n);
      written := w + n;
    }

    /** Bytes kept for another address are not the bytes that were accepted. */
    lemma {:induction false} Stale(addr: nat, loc: nat, bytes: seq<Byte>)
      requires page > 0 && writeLoc == addr && bytes == cache[..] && Offset(loc, page) < index <= |bytes|
      ensures addr != loc ==> Taken() != stream + Cells(loc, bytes[Offset(loc, page)..index])
    {
      if addr != loc {
        var o := Offset(addr, page);
        var kept := if o < index then cache[o..index] else [];
        assert Pending() == Cells(addr, kept);
        StaleDiffers(stream, loc, bytes[Offset(loc, page)..index], addr, kept);
      }
    }

    /** Lines 616-652: from a page boundary on, whole pages to the chip and the rest to the cache. */
    method Rest(addr: nat, data: seq<Byte>, ghost t: seq<Cell>) returns (ok: bool, n: nat)
      requires Valid() && stream == t && index == 0 && Offset(addr, page) == 0
      modifies this`chip, this`outcomes, this`failures, this`stream, this`index, this`writeLoc, cache
      ensures Valid() && n <= |data| && (ok ==> n == |data|)
      ensures Taken() == t + Cells(addr, data[..n]) && Continues(addr + n)
      ensures old(outcomes) == [] ==> ok && outcomes == []
      ensures failures >= old(failures) && ok == (failures == old(failures))
    {
      ok, n := WholePages(addr, data, t);
      if ok && n < |data| {
        KeepTail(addr, data, n, t);
        n := |data|;
      } else {
        NothingPending();
      }
    }

    /** What is left after the whole pages is cached. */
    method KeepTail(addr: nat, data: seq<Byte>, n: nat, ghost t: seq<Cell>)
      requires Valid() && index == 0 && writeLoc == addr + n && n < |data| && |data| - n < page && Offset(addr + n, page) == 0
      requires stream == t + Cells(addr, data[..n])
      modifies this`index, cache
      ensures Valid() && Taken() == t + Cells(addr, data[..|data|]) && Continues(addr + |data|)
    {
      TakeEnd(t, addr, data, n);
      KeepBytes(addr + n, data[n..], stream, t + Cells(addr, data[..|data|]));
    }

    /** Starts a new page in the empty cache. */
    method KeepBytes(addr: nat, tail: seq<Byte>, ghost t: seq<Cell>, ghost t': seq<Cell>)
      requires Valid() && index == 0 && writeLoc == addr && 0 < |tail| < page && Offset(addr, page) == 0
      requires stream == t && t' == t + Cells(addr, tail)
      modifies this`index, cache
      ensures Valid() && Taken() == t' && Continues(addr + |tail|)
    {
      NothingPending();
      Append(addr, tail, t);
    }

    lemma {:induction false} NothingPending()
      requires Valid() && index == 0
      ensures Taken() == stream
    {
    }

    // ----- the unbuffered write -----

    /** nlflash_spi_write without the partial-page buffer. */
    method WriteDirect(addr: nat, data: seq<Byte>) returns (ok: bool, written: nat)
      requires Logged()
      modifies this`chip, this`outcomes, this`failures, this`stream
      ensures Logged() && written <= |data| && (ok ==> written == |data|)
      ensures stream == old(stream) + Cells(addr, data[..written])
      ensures old(outcomes) == [] ==> ok && outcomes == []
      ensures failures >= old(failures) && ok == (failures == old(failures))
    {
      var done;
      ok, written, done := HeadDirect(addr, data);
      if ok && !done {
        ok, written := RestDirectFrom(addr, data, written, old(stream));
      }
    }

    /** The rest of a page that the write starts inside of. */
    method HeadDirect(addr: nat, data: seq<Byte>) returns (ok: bool, n: nat, done: bool)
      requires Logged()
      modifies this`chip, this`outcomes, this`failures, this`stream
      ensures Logged() && n <= |data|
      ensures stream == old(stream) + Cells(addr, data[..n])
      ensures ok ==> if done then n == |data| else Offset(addr + n, page) == 0
      ensures old(outcomes) == [] ==> ok && outcomes == []
      ensures failures >= old(failures) && ok == (failures == old(failures))
    {
      var offset := Offset(addr, page);
      TakeNone(stream, addr, data);
      ok, n, done := true, 0, false;
      if offset > 0 {
        var part := Min(page - offset, |data|);
        OffsetAdd(addr, part, page);
        ok := ProgramPage(addr, data[..part]);
        if ok {
          n, done := part, part == |data|;
        }
      }
    }

    method RestDirectFrom(addr: nat, data: seq<Byte>, w: nat, ghost t: seq<Cell>) returns (ok: bool, written: nat)
      requires w <= |data| && Logged() && Offset(addr + w, page) == 0
      requires stream == t + Cells(addr, data[..w])
      modifies this`chip, this`outcomes, this`failures, this`stream
      ensures Logged() && written <= |data| && (ok ==> written == |data|)
      ensures stream == t + Cells(addr, data[..written])
      ensures old(outcomes) == [] ==> ok && outcomes == []
      ensures failures >= old(failures) && ok == (failures == old(failures))
    {
      var n;
      ok, n := RestDirect(addr + w, data[w..]);
      TakeRest(t, addr, data, w, n);
      written := w + n;
    }

    /** Whole pages, then the trailing part of a page. */
    method RestDirect(addr: nat, data: seq<Byte>) returns (ok: bool, n: nat)
      requires Logged() && Offset(addr, page) == 0
      modifies this`chip, this`outcomes, this`failures, this`stream
      ensures Logged() && n <= |data| && (ok ==> n == |data|)
      ensures stream == old(stream) + Cells(addr, data[..n])
      ensures old(outcomes) == [] ==> ok && outcomes == []
      ensures failures >= old(failures) && ok == (failures == old(failures))
    {
      ok, n := ProgramWhole(addr, data);
      if ok && n < |data| {
        ok := ProgramPage(addr + n, data[n..]);
        if ok {
          assert data[n..|data|] == data[n..];
          TakeMore(old(stream), addr, data, n, |data|);
          n := |data|;
        }
      }
    }

    // ----- runs of writes -----

    /** Buffered writes followed by a flush. */
    method WriteAll(writes: seq<Block>) returns (ok: bool)
      requires Valid()
      modifies this`chip, this`outcomes, this`failures, this`stream, this`index, this`writeLoc, cache
      ensures ok ==> Valid() && index == 0 && stream == old(Taken()) + AllCells(writes)
      ensures old(outcomes) == [] ==> ok && outcomes == []
      ensures failures >= old(failures) && ok == (failures == old(failures))
    {
      ok := true;
      ghost var was := Taken();
      assert was + AllCells(writes[..0]) == was;
      for k := 0 to |writes|
        invariant Valid() && Taken() == was + AllCells(writes[..k])
        invariant old(outcomes) == [] ==> outcomes == []
        invariant failures == old(failures)
      {
        var written;
        ok, written := Write(writes[k].addr, writes[k].data);
        if !ok {
          return;
        }
        AllCellsSnoc(was, writes, k);
      }
      assert writes[..|writes|] == writes;
      ok := Flush();
      assert ok ==> Taken() == stream;
    }

    /** The same writes without the buffer. */
    method WriteAllDirect(writes: seq<Block>) returns (ok: bool)
      requires Logged()
      modifies this`chip, this`outcomes, this`failures, this`stream
      ensures Logged()
      ensures ok ==> stream == old(stream) + AllCells(writes)
      ensures old(outcomes) == [] ==> ok && outcomes == []
      ensures failures >= old(failures) && ok == (failures == old(failures))
    {
      ok := true;
      ghost var was := stream;
      assert was + AllCells(writes[..0]) == was;
      for k := 0 to |writes|
        invariant Logged() && stream == was + AllCells(writes[..k])
        invariant old(outcomes) == [] ==> ok && outcomes == []
        invariant ok && failures == old(failures)
      {
        var written;
        ok, written := WriteDirect(writes[k].addr, writes[k].data);
        if !ok {
          return;
        }
        AllCellsSnoc(was, writes, k);
      }
      assert writes[..|writes|] == writes;
    }

    // ----- erasing -----

    /** One erase command and the wait for it to finish. */
    method EraseBlock(addr: nat, size: nat) returns (ok: bool)
      modifies this`chip, this`outcomes
      ensures ok == old(NextOk())
      ensures chip == if ok then Erased(old(chip), addr, size) else old(chip)
      ensures outcomes == if old(outcomes) == [] then [] else old(outcomes)[1..]
    {
      ok := NextOk();
      outcomes := if outcomes == [] then [] else outcomes[1..];
      if ok {
        chip := Erased(chip, addr, size);
      }
    }

    /** One of the three loops of nlflash_spi_erase, over `total` bytes in blocks of one size, after
        `done` bytes. `answers` are the results of the coming invocations of the callback. */
    method EraseBlocks(addr: nat, done: nat, blocks: seq<Sector>, total: nat, size: nat, answers: seq<bool>,
                       ghost was: Chip, ghost commands: seq<bool>, ghost callbacks: seq<bool>)
      returns (ok: bool, len: nat, blocks': seq<Sector>, rest: seq<bool>)
      requires size > 0 && Multiple(total, size) && (total > 0 ==> Multiple(addr + done, size))
      requires ErasedBy(chip, was, addr, done, blocks, sub, sector) && (size == sub || size == sector)
      requires Clear(commands, callbacks, |blocks|) && outcomes == From(commands, |blocks|) && answers == From(callbacks, |blocks|)
      modifies this`chip, this`outcomes
      ensures ErasedBy(chip, was, addr, len, blocks', sub, sector)
      ensures done <= len <= done + total && (ok ==> len == done + total)
      ensures Course(ok, commands, callbacks, |blocks'|)
      ensures ok ==> outcomes == From(commands, |blocks'|) && rest == From(callbacks, |blocks'|)
    {
      ok, len, blocks', rest := true, done, blocks, answers;
      while len < done + total
        invariant ErasedBy(chip, was, addr, len, blocks', sub, sector)
        invariant done <= len <= done + total && Multiple(len - done, size)
        invariant total > 0 ==> Multiple(addr + len, size)
        invariant ok && Clear(commands, callbacks, |blocks'|)
        invariant outcomes == From(commands, |blocks'|) && rest == From(callbacks, |blocks'|)
        decreases done + total - len
      {
        MultipleAdd(addr + len, size, size);
        MultipleAdd(len - done, size, size);
        MultipleRoom(len - done, total, size);
        var erased;
        ok, erased, blocks', rest := EraseOne(addr, len, blocks', size, rest, was, commands, callbacks);
        if erased {
          len := len + size;
        }
        if !ok {
          return;
        }
      }
    }

    /** One erase command and the callback after it. */
    method EraseOne(addr: nat, len: nat, blocks: seq<Sector>, size: nat, answers: seq<bool>,
                    ghost was: Chip, ghost commands: seq<bool>, ghost callbacks: seq<bool>)
      returns (ok: bool, erased: bool, blocks': seq<Sector>, rest: seq<bool>)
      requires size > 0 && (size == sub || size == sector) && Multiple(addr + len, size)
      requires ErasedBy(chip, was, addr, len, blocks, sub, sector)
      requires Clear(commands, callbacks, |blocks|) && outcomes == From(commands, |blocks|) && answers == From(callbacks, |blocks|)
      modifies this`chip, this`outcomes
      ensures ErasedBy(chip, was, addr, if erased then len + size else len, blocks', sub, sector) && (ok ==> erased)
      ensures Course(ok, commands, callbacks, |blocks'|)
      ensures ok ==> Clear(commands, callbacks, |blocks'|) && outcomes == From(commands, |blocks'|) && rest == From(callbacks, |blocks'|)
    {
      ErasedByOneMore(chip, was, addr, len, blocks, sub, sector, size);
      FromNext(commands, |blocks|);
      FromNext(callbacks, |blocks|);
      blocks', rest := blocks, answers;
      ok := EraseBlock(addr + len, size);
      erased := ok;
      if erased {
        blocks' := blocks + [Sector(addr + len, size)];
        if answers != [] {
          ok, rest := answers[0], answers[1..];
        }
      }
    }

    /** nlflash_spi_erase. `before` is the value of *retlen at the call. */
    method Erase(addr: nat, len: nat, answers: seq<bool>, before: nat)
      returns (ok: bool, retlen: nat, blocks: seq<Sector>)
      requires Valid() && index == 0
      requires sub > 0 && sector > 0 && Multiple(sector, sub) && Multiple(addr, sub) && Multiple(len, sub)
      modifies this`chip, this`outcomes, this`origin, this`stream
      ensures Valid() && origin == chip && stream == []
      ensures ok ==> retlen == len
      ensures !ok && addr == 0 && len == |chip| ==> retlen == before && blocks == [] && chip == old(chip)
      ensures ok || !(addr == 0 && len == |chip|) ==>
                retlen <= len && chip == Erased(old(chip), addr, retlen) && Tiles(blocks, addr, addr + retlen)
      ensures Aligned(blocks, sub, sector) || blocks == [Sector(0, |chip|)]
      ensures !(addr == 0 && len == |chip|) ==> Course(ok, old(outcomes), answers, |blocks|)
      ensures old(outcomes) == [] && answers == [] ==> ok && outcomes == []
    {
      if addr == 0 && len == |chip| {
        ok, retlen, blocks := EraseChip(before);
      } else {
        ok, retlen, blocks := EraseRange(addr, len, answers);
      }
      origin, stream := chip, [];
    }

    /** The bulk erase of the whole chip. */
    method EraseChip(before: nat) returns (ok: bool, retlen: nat, blocks: seq<Sector>)
      modifies this`chip, this`outcomes
      ensures if ok then retlen == |chip| && chip == Erased(old(chip), 0, |chip|) && Tiles(blocks, 0, |chip|)
              else retlen == before && blocks == [] && chip == old(chip)
      ensures blocks == [] || blocks == [Sector(0, |chip|)]
      ensures old(outcomes) == [] ==> ok && outcomes == []
    {
      ok := EraseBlock(0, |chip|);
      retlen, blocks := before, [];
      if ok {
        retlen := |chip|;
        blocks := if |chip| == 0 then [] else [Sector(0, |chip|)];
        assert |chip| > 0 ==> blocks[1..] == [];
      }
    }

    /** Sub-sectors up to a sector boundary, whole sectors, sub-sectors to the end. */
    method EraseRange(addr: nat, len: nat, answers: seq<bool>)
      returns (ok: bool, retlen: nat, blocks: seq<Sector>)
      requires sub > 0 && sector > 0 && Multiple(sector, sub) && Multiple(addr, sub) && Multiple(len, sub)
      modifies this`chip, this`outcomes
      ensures retlen <= len && (ok ==> retlen == len)
      ensures chip == Erased(old(chip), addr, retlen) && Tiles(blocks, addr, addr + retlen)
      ensures Aligned(blocks, sub, sector) && Course(ok, old(outcomes), answers, |blocks|)
      ensures old(outcomes) == [] && answers == [] ==> ok && outcomes == []
    {
      var plan := ErasePlan(addr, len, sub, sector);
      PlanCovers(addr, len, sub, sector);
      ok, retlen, blocks := EraseParts(addr, plan.first * sub, plan.sectors * sector, plan.last * sub, answers);
    }

    /** The three loops, over a, b and c bytes. */
    method EraseParts(addr: nat, a: nat, b: nat, c: nat, answers: seq<bool>)
      returns (ok: bool, retlen: nat, blocks: seq<Sector>)
      requires sub > 0 && sector > 0 && Multiple(a, sub) && Multiple(b, sector) && Multiple(c, sub)
      requires Multiple(addr, sub)
      requires (b > 0 ==> Multiple(addr + a, sector)) && (c > 0 ==> Multiple(addr + a + b, sub))
      modifies this`chip, this`outcomes
      ensures retlen <= a + b + c && (ok ==> retlen == a + b + c)
      ensures chip == Erased(old(chip), addr, retlen) && Tiles(blocks, addr, addr + retlen)
      ensures Aligned(blocks, sub, sector) && Course(ok, old(outcomes), answers, |blocks|)
      ensures old(outcomes) == [] && answers == [] ==> ok && outcomes == []
    {
      ghost var was, commands := chip, outcomes;
      var rest;
      assert chip == Erased(was, addr, 0);
      assert ErasedBy(chip, was, addr, 0, [], sub, sector);
      ok, retlen, blocks, rest := EraseBlocks(addr, 0, [], a, sub, answers, was, commands, answers);
      if ok {
        ok, retlen, blocks, rest := EraseBlocks(addr, retlen, blocks, b, sector, rest, was, commands, answers);
      }
      if ok {
        ok, retlen, blocks, rest := EraseBlocks(addr, retlen, blocks, c, sub, rest, was, commands, answers);
      }
      if commands == [] && answers == [] {
        NeverStopped(ok, |blocks|);
      }
    }
  }

  /** What is left of a list after its first k elements. */
  function From(s: seq<bool>, k: nat): (r: seq<bool>)
    decreases k
  {
    if k == 0 || s == [] then s else From(s[1..], k - 1)
  }

  /** The k-th command or callback succeeds; past the end of the list all do. */
  predicate Yes(s: seq<bool>, k: nat) {
    k < |s| ==> s[k]
  }

  lemma {:induction false} FromNext(s: seq<bool>, k: nat)
    ensures From(s, k) == [] ==> Yes(s, k) && From(s, k + 1) == []
    ensures From(s, k) != [] ==> From(s, k)[0] == Yes(s, k) && From(s, k)[1..] == From(s, k + 1)
    decreases k
  {
    if k > 0 && s != [] {
      FromNext(s[1..], k - 1);
    }
  }

  predicate Clear(commands: seq<bool>, callbacks: seq<bool>, c: nat) {
    c == 0 || (Yes(commands, c - 1) && Yes(callbacks, c - 1) && Clear(commands, callbacks, c - 1))
  }

  lemma {:induction false} ClearAt(commands: seq<bool>, callbacks: seq<bool>, c: nat, k: nat)
    requires Clear(commands, callbacks, c) && k < c
    ensures Yes(commands, k) && Yes(callbacks, k)
  {
    if k < c - 1 {
      ClearAt(commands, callbacks, c - 1, k);
    }
  }

  /** c blocks were erased, each by a command that worked. It went on to the end unless the callback after the last of
      them refused, or the next command failed; after every other one the callback agreed. */
  predicate Course(ok: bool, commands: seq<bool>, callbacks: seq<bool>, c: nat) {
    if ok then Clear(commands, callbacks, c)
    else
      || (c > 0 && Clear(commands, callbacks, c - 1) && Yes(commands, c - 1) && !Yes(callbacks, c - 1))
      || (Clear(commands, callbacks, c) && !Yes(commands, c))
  }

  /** So every callback before the last block agreed, and an erase that stopped had a reason. */
  lemma {:induction false} CourseAt(ok: bool, commands: seq<bool>, callbacks: seq<bool>, c: nat, k: nat)
    requires Course(ok, commands, callbacks, c) && k < c
    ensures Yes(commands, k) && (k < c - 1 || ok ==> Yes(callbacks, k))
    ensures !ok ==> !Yes(callbacks, c - 1) || !Yes(commands, c)
  {
    if Clear(commands, callbacks, c) {
      ClearAt(commands, callbacks, c, k);
    } else if k < c - 1 {
      ClearAt(commands, callbacks, c - 1, k);
    }
  }

  lemma {:induction false} NeverStopped(ok: bool, c: nat)
    requires Course(ok, [], [], c)
    ensures ok
  {
  }

  /** Every command erases a sub-sector or a sector, and starts on a boundary of its own size. */
  predicate Aligned(blocks: seq<Sector>, sub: nat, sector: nat) {
    forall b :: b in blocks ==> b.size > 0 && (b.size == sub || b.size == sector) && Multiple(b.addr, b.size)
  }

  /** The commands so far erased exactly the first `len` bytes from `addr` on. */
  predicate ErasedBy(chip: Chip, was: Chip, addr: nat, len: nat, blocks: seq<Sector>, sub: nat, sector: nat) {
    chip == Erased(was, addr, len) && Tiles(blocks, addr, addr + len) && Aligned(blocks, sub, sector)
  }

  lemma {:induction false} ErasedByOneMore(
    chip: Chip, was: Chip, addr: nat, len: nat, blocks: seq<Sector>, sub: nat, sector: nat, size: nat)
    requires ErasedBy(chip, was, addr, len, blocks, sub, sector)
    requires size > 0 && (size == sub || size == sector) && Multiple(addr + len, size)
    ensures ErasedBy(Erased(chip, addr + len, size), was, addr, len + size, blocks + [Sector(addr + len, size)], sub, sector)
  {
    ErasedMore(was, addr, len, size);
    TilesSnoc(blocks, addr, addr + len, size);
  }

  /** How many sub-sectors, sectors and sub-sectors an erase takes (lines 467-488). */
  datatype Plan = Plan(first: nat, sectors: nat, last: nat)

  /** How many sub-sectors come before the first sector boundary. */
  function BeforeBoundary(addr: nat, sub: nat, sector: nat): (r: nat)
    requires sub > 0 && sector > 0 && Multiple(addr, sub) && Multiple(sector, sub)
    ensures r * sub == if Offset(addr, sector) > 0 then sector - Offset(addr, sector) else 0
  {
    FirstFits(addr, sub, sector);
    var left := Offset(addr, sector);
    if left > 0 then (sector - left) / sub else 0
  }

  function ErasePlan(addr: nat, len: nat, sub: nat, sector: nat): (r: Plan)
    requires sub > 0 && sector > 0 && Multiple(addr, sub) && Multiple(sector, sub)
  {
    if len >= sector then
      var first := BeforeBoundary(addr, sub, sector);
      var len1 := len - first * sub;
      RoundDownMultiple(len1, sector);
      Plan(first, len1 / sector, (len1 - len1 / sector * sector) / sub)
    else
      Plan(len / sub, 0, 0)
  }

  lemma {:induction false} FirstFits(addr: nat, sub: nat, sector: nat)
    requires sub > 0 && sector > 0 && Multiple(addr, sub) && Multiple(sector, sub)
    ensures var left := Offset(addr, sector); (sector - left) / sub * sub == sector - left
  {
    MultipleOffset(addr, sector, sub);
    MultipleSub(sector, Offset(addr, sector), sub);
    MultipleDiv(sector - Offset(addr, sector), sub);
  }

  /** The plan adds up to the length, its blocks start on their own boundaries, and it takes as few sub-sectors as it can. */
  lemma {:induction false} PlanCovers(addr: nat, len: nat, sub: nat, sector: nat)
    requires sub > 0 && sector > 0 && Multiple(addr, sub) && Multiple(len, sub) && Multiple(sector, sub)
    ensures var p := ErasePlan(addr, len, sub, sector);
            && p.first * sub + p.sectors * sector + p.last * sub == len
            && p.first * sub < sector && p.last * sub < sector && (len < sector ==> p.sectors == 0)
            && Multiple(p.first * sub, sub) && Multiple(p.sectors * sector, sector) && Multiple(p.last * sub, sub)
            && (p.sectors * sector > 0 ==> Multiple(addr + p.first * sub, sector))
            && (p.last * sub > 0 ==> Multiple(addr + p.first * sub + p.sectors * sector, sub))
  {
    var p := ErasePlan(addr, len, sub, sector);
    if len < sector {
      MultipleDiv(len, sub);
    } else {
      var left := Offset(addr, sector);
      OffsetAdd(addr, sector - left, sector);
      MultipleOffset(addr, sector, sub);
      MultipleSub(sector, left, sub);
      var len1 := len - p.first * sub;
      assert p.first * sub == if left > 0 then sector - left else 0;
      MultipleSub(len, p.first * sub, sub);
      RoundDownMultiple(len1, sector);
      MultipleOffset(len1, sector, sub);
      MultipleDiv(Offset(len1, sector), sub);
      RoundDownOffset(len1, sector);
      MultipleTrans(RoundDown(len1, sector), sector, sub);
      MultipleAdd(addr, p.first * sub, sub);
      MultipleAdd(addr + p.first * sub, p.sectors * sector, sub);
    }
  }

  lemma {:induction false} MultipleRoom(x: nat, y: nat, m: nat)
    requires m > 0 && Multiple(x, m) && Multiple(y, m) && x < y
    ensures x + m <= y
  {
    MultipleSub(y, x, m);
  }

  /** One erase command. */
  datatype Sector = Sector(addr: nat, size: nat)

  /** The blocks cover [from, to) in order, with neither gap nor overlap. */
  predicate Tiles(blocks: seq<Sector>, from: nat, to: nat) {
    if blocks == [] then from == to
    else blocks[0].addr == from && Tiles(blocks[1..], from + blocks[0].size, to)
  }

  lemma {:induction false} TilesConcat(a: seq<Sector>, b: seq<Sector>, x: nat, y: nat, z: nat)
    requires Tiles(a, x, y) && Tiles(b, y, z)
    ensures Tiles(a + b, x, z)
    decreases |a|
  {
    if a == [] {
      assert a + b == b;
    } else {
      TilesConcat(a[1..], b, x + a[0].size, y, z);
      assert (a + b)[1..] == a[1..] + b;
    }
  }

  lemma {:induction false} TilesSnoc(a: seq<Sector>, x: nat, y: nat, size: nat)
    requires Tiles(a, x, y)
    ensures Tiles(a + [Sector(y, size)], x, y + size)
  {
    assert Tiles([Sector(y, size)], y, y + size);
    TilesConcat(a, [Sector(y, size)], x, y, y + size);
  }

  lemma {:induction false} ErasedMore(chip: Chip, addr: nat, m: nat, n: nat)
    ensures Erased(Erased(chip, addr, m), addr + m, n) == Erased(chip, addr, m + n)
  {
  }

  /** One call of the write function. */
  datatype Block = Block(addr: nat, data: seq<Byte>)

  function AllCells(writes: seq<Block>): (r: seq<Cell>) {
    if writes == [] then [] else
      var last := writes[|writes| - 1];
      AllCells(writes[..|writes| - 1]) + Cells(last.addr, last.data)
  }

  lemma {:induction false} AllCellsSnoc(t: seq<Cell>, writes: seq<Block>, k: nat)
    requires k < |writes|
    ensures (t + AllCells(writes[..k])) + Cells(writes[k].addr, writes[k].data[..|writes[k].data|])
         == t + AllCells(writes[..k + 1])
  {
    assert writes[..k + 1][..k] == writes[..k];
    assert writes[k].data[..|writes[k].data|] == writes[k].data;
    assert t + AllCells(writes[..k]) + Cells(writes[k].addr, writes[k].data)
        == t + (AllCells(writes[..k]) + Cells(writes[k].addr, writes[k].data));
  }

  /** Any sequence of successful buffered writes ending in a flush programs exactly the bytes the
      unbuffered code programs, in the same order, and leaves the chip in the same state. */
  method BufferedEqualsDirect(a: Device, b: Device, writes: seq<Block>) returns (okA: bool, okB: bool)
    requires a != b && a.Valid() && b.Valid() && a.index == 0
    requires a.origin == b.origin && a.stream == b.stream
    modifies a, a.cache, b
    ensures okA && okB ==> a.index == 0 && a.chip == b.chip && a.stream == b.stream
    ensures (old(a.outcomes) == [] ==> okA) && (old(b.outcomes) == [] ==> okB)
    ensures okA && okB ==> b.stream == old(b.stream) + AllCells(writes)
  {
    assert a.Taken() == a.stream;
    okA := a.WriteAll(writes);
    okB := b.WriteAllDirect(writes);
  }

  /** A byte is written to address 1 and cached; the next command will fail. */
  method ByteCachedForOne() returns (d: Device, blank: Chip)
    ensures fresh(d) && fresh(d.cache) && d.Valid() && d.page == 256 && d.outcomes == [false]
    ensures blank == seq(512, _ => 0xFF) && d.origin == blank && d.stream == []
    ensures d.writeLoc == 1 && d.index == 2 && d.cache[1] == 0x5A
  {
    blank := seq(512, _ => 0xFF);
    d := new Device(256, 4096, 65536, blank, [false]);
    d.NothingPending();
    var ok, written := d.Write(1, [0x5A]);
    assert d.Taken() == d.Pending();
    OnlyByte(d.writeLoc, if d.index == 0 then [] else d.cache[Offset(d.writeLoc, 256)..d.index], 1, [0x5A][..written], 0x5A);
  }

  /** A write at address 257 then fails because the flush it starts with fails, and leaves the byte
      aimed at 257. */
  method FailedFlushRetargetsByte() returns (d: Device, blank: Chip)
    ensures fresh(d) && fresh(d.cache) && d.Valid() && d.page == 256 && d.outcomes == []
    ensures blank == seq(512, _ => 0xFF) && d.origin == blank && d.stream == []
    ensures d.writeLoc == 257 && d.index == 2 && d.cache[1] == 0x5A
  {
    d, blank := ByteCachedForOne();
    ghost var bytes := d.cache[..];
    assert Offset(257, 256) == 1;
    var _, _ := d.Write(257, [0x11]);
    assert d.cache[1] == d.cache[..][1] == bytes[1];
  }

  /** The bytes a failed flush leaves behind go to the wrong place: the next flush, which works,
      programs the byte at 257 and never at 1. */
  method FailedFlushMisplacesByte() returns (d: Device)
    ensures fresh(d) && |d.chip| == 512 && d.chip[1] == 0xFF && d.chip[257] == 0x5A
  {
    var blank;
    d, blank := FailedFlushRetargetsByte();
    assert Offset(257, 256) == 1;
    ghost var left := d.cache[1..2];
    assert d.Pending() == Cells(257, left);
    var _ := d.Flush();
    d.NothingPending();
    assert d.stream == Cells(257, left);
    BurnAt(blank, 257, left, 1);
    BurnBlank(blank, 257, left, 257);
  }

  lemma {:induction false} OnlyByte(addr: nat, data: seq<Byte>, addr': nat, data': seq<Byte>, b: Byte)
    requires Cells(addr, data) == Cells(addr', data') && data' == [b]
    ensures addr == addr' && data == [b]
  {
    CellsAt(addr', data', 0);
    if data != [] {
      CellsAt(addr, data, 0);
    }
  }

  lemma {:induction false} StaleDiffers(t: seq<Cell>, addr: nat, data: seq<Byte>, addr': nat, data': seq<Byte>)
    requires data != [] && addr != addr'
    ensures t + Cells(addr', data') != t + Cells(addr, data)
  {
    CellsAt(addr, data, 0);
    assert (t + Cells(addr, data))[|t|] == Cell(addr, data[0]);
    if data' != [] {
      CellsAt(addr', data', 0);
      assert (t + Cells(addr', data'))[|t|] == Cell(addr', data'[0]);
    }
  }

  lemma {:induction false} AppendCells(was: seq<Byte>, now: seq<Byte>, start: nat, offset: nat, data: seq<Byte>, loc: nat, addr: nat)
    requires start <= offset && offset + |data| <= |was|
    requires now == was[..offset] + data + was[offset + |data|..]
    requires addr == loc + (offset - start)
    ensures Cells(loc, now[start..offset + |data|]) == Cells(loc, was[start..offset]) + Cells(addr, data)
  {
    assert now[start..offset + |data|] == was[start..offset] + data;
    CellsConcat(loc, was[start..offset], data);
  }
}
