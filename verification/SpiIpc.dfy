/**
  One full-duplex frame exchange with the SPI slave, outside ACK mode. While the master clocks its own
  frame out it clocks the slave's in, and then goes on if the slave's is longer. `wire(i)` is the i-th
  byte the slave puts on the bus after chip select.
 */
module SpiIpc {
  import opened Words

  const MaxFromSlave: nat := 244
  const BufferSize: nat := MaxFromSlave + 1

  type Wire = nat -> U8

  /** A CRC by its start value and the step for one byte; nothing more about it matters here. */
  datatype Checksum = Checksum(seed: U8, step: (U8, U8) -> U8)

  /** What a received frame leads to: a call of one of the two handlers, or neither, or an access past
      the receive buffer. */
  datatype Outcome =
    | Nothing
    | Delivered(opcode: U8, data: seq<U8>)
    | Corrupted(opcode: U8, data: seq<U8>)
    | OutOfBounds

  /** crc8_ccitt_append. */
  function Append(c: Checksum, crc: U8, bytes: seq<U8>): (r: U8)
    decreases |bytes|
  {
    if bytes == [] then crc else Append(c, c.step(crc, bytes[0]), bytes[1..])
  }

  /** crc8_ccitt. */
  function Crc(c: Checksum, bytes: seq<U8>): (r: U8) {
    Append(c, c.seed, bytes)
  }

  /** Each byte takes part in the CRC, by one step. */
  lemma {:induction false} AppendOne(c: Checksum, bytes: seq<U8>, b: U8)
    ensures Crc(c, []) == c.seed && Crc(c, bytes + [b]) == c.step(Crc(c, bytes), b)
  {
    AppendTwice(c, c.seed, bytes, [b]);
    assert [b][1..] == [];
  }

  /** Computing in two parts, as both ends do, gives the CRC of the whole. */
  lemma {:induction false} AppendTwice(c: Checksum, crc: U8, a: seq<U8>, b: seq<U8>)
    ensures Append(c, Append(c, crc, a), b) == Append(c, crc, a + b)
    decreases |a|
  {
    if a == [] {
      assert a + b == b;
    } else {
      AppendTwice(c, c.step(crc, a[0]), a[1..], b);
      assert (a + b)[1..] == a[1..] + b;
    }
  }

  /** A frame: its length, the opcode, the data, and the CRC of all that. */
  function Frame(c: Checksum, opcode: U8, data: seq<U8>): (r: seq<U8>)
    requires |data| <= 252
    ensures |r| == |data| + 3 && r[0] == |r| && r[1] == opcode && r[2..|data| + 2] == data
    ensures r[|data| + 2] == Crc(c, r[..|data| + 2])
  {
    var body := [|data| + 3, opcode] + data;
    assert (body + [Crc(c, body)])[..|data| + 2] == body;
    body + [Crc(c, body)]
  }

  function Bytes(wire: Wire, from: nat, n: nat): (r: seq<U8>)
    ensures |r| == n
  {
    seq(n, i requires 0 <= i < n => wire(from + i))
  }

  /** What a receiver should make of the bytes on the wire. */
  function Heard(c: Checksum, wire: Wire): (r: Outcome) {
    var len := wire(0);
    if len == 0 then Nothing
    else if len < 3 || len - 3 > MaxFromSlave then OutOfBounds
    else
      var data := Bytes(wire, 2, len - 3);
      if Crc(c, [len, wire(1)] + data) == wire(len - 1) then Delivered(wire(1), data)
      else Corrupted(wire(1), data)
  }

  // ----- what is heard -----

  /** A message is delivered exactly when its frame, bit for bit, is what was on the wire. */
  lemma {:induction false} DeliveredExactly(c: Checksum, wire: Wire, opcode: U8, data: seq<U8>)
    requires |data| <= MaxFromSlave
    ensures Heard(c, wire) == Delivered(opcode, data) <==> Bytes(wire, 0, |data| + 3) == Frame(c, opcode, data)
  {
    var n := |data|;
    var all := Bytes(wire, 0, n + 3);
    var frame := Frame(c, opcode, data);
    if Heard(c, wire) == Delivered(opcode, data) {
      assert wire(0) == n + 3 && wire(1) == opcode;
      assert data == Bytes(wire, 2, n);
      assert [wire(0), wire(1)] + data == [n + 3, opcode] + data;
      forall i | 0 <= i < n + 3
        ensures all[i] == frame[i]
      {
        if 2 <= i < n + 2 {
          assert data[i - 2] == wire(2 + (i - 2));
        }
      }
      assert all == frame;
    }
    if all == frame {
      assert all[0] == n + 3 && all[1] == opcode;
      assert wire(0) == n + 3 && wire(1) == opcode;
      forall i | 0 <= i < n
        ensures Bytes(wire, 2, n)[i] == data[i]
      {
        assert all[i + 2] == frame[i + 2];
      }
      assert Bytes(wire, 2, n) == data;
      assert all[n + 2] == frame[n + 2];
      assert [wire(0), wire(1)] + data == [n + 3, opcode] + data;
    }
  }

  function Steady(b: U8): (wire: Wire) {
    (i: nat) => b
  }

  /** A length byte of 248, one more than the largest frame's, passes the driver's length check and leads past the buffer. */
  lemma {:induction false} OneTooLong(c: Checksum)
    ensures Heard(c, Steady(248)) == OutOfBounds && 248 - 3 <= BufferSize
  {
  }

  // ----- the code -----

  /** 8-bit subtraction. */
  function Sub8(a: U8, b: U8): (r: U8) {
    if a >= b then a - b else a - b + 0x100
  }

  class Master {
    const c: Checksum
    const rx: array<U8>         // rx_buffer

    constructor (c: Checksum)
      ensures this.c == c && fresh(rx) && rx.Length == BufferSize
    {
      this.c := c;
      rx := new U8[BufferSize];
    }

    /** Clocks n bytes of the slave's from position `from` on into the buffer. */
    method Receive(wire: Wire, from: nat, at: nat, n: nat)
      requires at + n <= rx.Length
      modifies rx
      ensures rx[at..at + n] == Bytes(wire, from, n)
      ensures rx[..at] == old(rx[..at])
    {
      var i := 0;
      while i < n
        invariant 0 <= i <= n
        invariant rx[at..at + i] == Bytes(wire, from, i)
        invariant rx[..at] == old(rx[..at])
      {
        rx[at + i] := wire(from + i);
        assert rx[at..at + i + 1] == rx[at..at + i] + [rx[at + i]];
        assert Bytes(wire, from, i + 1) == Bytes(wire, from, i) + [wire(from + i)];
        i := i + 1;
      }
    }

    /** Fills the buffer further, so that it holds the first at + n bytes after the header. */
    method Continue(wire: Wire, at: nat, n: nat)
      requires at + n <= rx.Length && rx[..at] == Bytes(wire, 2, at)
      modifies rx
      ensures rx[..at + n] == Bytes(wire, 2, at + n)
    {
      Receive(wire, 2 + at, at, n);
      assert rx[..at + n] == rx[..at] + rx[at..at + n];
      assert Bytes(wire, 2, at + n) == Bytes(wire, 2, at) + Bytes(wire, 2 + at, n);
    }

    /** check_crc_and_dispatch. */
    method CheckAndDispatch(len: U8, opcode: U8, n: U8) returns (outcome: Outcome)
      requires rx.Length == BufferSize
      ensures outcome ==
        if len == 0 then Nothing
        else if n >= BufferSize then OutOfBounds
        else if Crc(c, [len, opcode] + rx[..n]) == rx[n] then Delivered(opcode, rx[..n])
        else Corrupted(opcode, rx[..n])
    {
      if len == 0 {
        return Nothing;
      }
      if n >= BufferSize {
        return OutOfBounds;
      }
      var crc := Crc(c, [len, opcode]);
      crc := Append(c, crc, rx[..n]);
      AppendTwice(c, c.seed, [len, opcode], rx[..n]);
      if crc != rx[n] {
        outcome := Corrupted(opcode, rx[..n]);
      } else {
        outcome := Delivered(opcode, rx[..n]);
      }
    }

    /** Clocks the master's frame out, and as many bytes of the slave's in. */
    method SendOwn(opcode: U8, data: seq<U8>, wire: Wire) returns (sent: seq<U8>)
      requires rx.Length == BufferSize && |data| <= MaxFromSlave
      modifies rx
      ensures sent == Frame(c, opcode, data)
      ensures rx[..|data| + 1] == Bytes(wire, 2, |data| + 1)
    {
      sent := [|data| + 3, opcode];
      var crc := Crc(c, sent);
      crc := Append(c, crc, data);
      AppendTwice(c, c.seed, sent, data);
      if |data| > 0 {
        Continue(wire, 0, |data|);
        sent := sent + data;
        Continue(wire, |data|, 1);
      } else {
        assert sent + data == sent;
        Continue(wire, 0, 1);
      }
      sent := sent + [crc];
    }

    /** The exchange of nlspi_ipc_send. The slave is sent the master's frame, then only idle clocks; what
        it sends is taken exactly as heard; and its data and CRC end up at the start of the buffer. The
        length check lets one too many through and a frame it refuses is dispatched all the same, so a
        length byte of 1, 2 or more than the largest frame's leads past the buffer, and no other does. */
    method Send(opcode: U8, data: seq<U8>, wire: Wire) returns (outcome: Outcome, sent: seq<U8>, idle: nat)
      requires rx.Length == BufferSize && |data| <= MaxFromSlave
      modifies rx
      ensures sent == Frame(c, opcode, data)
      ensures outcome == Heard(c, wire)
      ensures outcome == OutOfBounds <==> 1 <= wire(0) <= 2 || wire(0) > MaxFromSlave + 3
      ensures 3 <= wire(0) <= MaxFromSlave + 3 ==>
        rx[..wire(0) - 2] == Bytes(wire, 2, wire(0) - 2) && |sent| + idle >= wire(0)
    {
      var d := |data|;
      sent := SendOwn(opcode, data, wire);
      var len, op := wire(0), wire(1);
      idle := 0;
      var n: U8 := 0;
      if len != 0 {
        n := Sub8(len, 3);
        if n <= BufferSize && n > d {
          idle := n - d;
          if d + 1 + idle > BufferSize {
            return OutOfBounds, sent, idle;
          }
          Continue(wire, d + 1, idle);
        }
      }
      if 3 <= len && n <= MaxFromSlave {
        HoldsFrame(rx[..], wire, n, if n > d then n else d);
      }
      outcome := CheckAndDispatch(len, op, n);
    }

    /** The exchange of nlspi_ipc_work, where only the slave has a frame. A frame that is too long is not
        clocked in, but what the buffer held before is then dispatched in its place. */
    method Work(wire: Wire) returns (outcome: Outcome)
      requires rx.Length == BufferSize
      modifies rx
      ensures 3 <= wire(0) <= MaxFromSlave + 3 || wire(0) == 0 ==> outcome == Heard(c, wire)
      ensures wire(0) == 2 ==> outcome == OutOfBounds
      ensures wire(0) == 1 || wire(0) > MaxFromSlave + 3 ==>
        rx[..] == old(rx[..]) && (outcome.Delivered? || outcome.Corrupted?) && outcome.data == rx[..MaxFromSlave]
    {
      var len, op := wire(0), wire(1);
      var num: U8 := BufferSize;
      if len != 0 {
        var body := Sub8(len, 2);
        if body <= num {
          num := body;
          Continue(wire, 0, num);
        }
      }
      outcome := CheckAndDispatch(len, op, Sub8(num, 1));
      if 3 <= len <= MaxFromSlave + 3 {
        HoldsFrame(rx[..], wire, len - 3, len - 3);
      }
    }
  }

  /** If the buffer holds enough of the wire, it holds the frame's data and CRC. */
  lemma {:induction false} HoldsFrame(buf: seq<U8>, wire: Wire, n: nat, d: nat)
    requires n <= d < |buf| && buf[..d + 1] == Bytes(wire, 2, d + 1)
    ensures buf[..n + 1] == Bytes(wire, 2, n + 1) && buf[..n] == Bytes(wire, 2, n) && buf[n] == wire(n + 2)
  {
    assert buf[..n + 1] == buf[..d + 1][..n + 1];
    assert buf[..n] == buf[..d + 1][..n];
    assert buf[n] == buf[..d + 1][n];
  }
}
