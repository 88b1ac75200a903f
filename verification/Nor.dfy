/**
  NOR flash as the driver sees it: erasing sets bytes to 0xFF, programming clears bits. A byte
  stream of (address, value) cells is the common account of what was written, however it was
  split into program commands.
 */
module Nor {

  type Byte = bv8
  type Chip = seq<Byte>

  datatype Cell = Cell(addr: nat, value: Byte)

  /** The bytes of a block with their addresses. */
  function Cells(addr: nat, data: seq<Byte>): (r: seq<Cell>)
    decreases |data|
  {
    if data == [] then [] else [Cell(addr, data[0])] + Cells(addr + 1, data[1..])
  }

  /** The values programmed to address j, in order. */
  function ValuesAt(cells: seq<Cell>, j: nat): (r: seq<Byte>)
    decreases |cells|
  {
    if cells == [] then []
    else (if cells[0].addr == j then [cells[0].value] else []) + ValuesAt(cells[1..], j)
  }

  /** Programming can only clear bits. */
  function Masked(b: Byte, values: seq<Byte>): (r: Byte)
    decreases |values|
  {
    if values == [] then b else Masked(b & values[0], values[1..])
  }

  /** Programs the cells. Addresses past the end hit nothing. */
  function Burn(chip: Chip, cells: seq<Cell>): (r: Chip)
    ensures |r| == |chip| && forall j :: 0 <= j < |r| ==> r[j] == Masked(chip[j], ValuesAt(cells, j))
  {
    seq(|chip|, j requires 0 <= j < |chip| => Masked(chip[j], ValuesAt(cells, j)))
  }

  /** Erases a range; the part past the end of the chip does not exist. */
  function Erased(chip: Chip, addr: nat, len: nat): (r: Chip)
    ensures |r| == |chip|
    ensures forall j :: 0 <= j < |r| ==> r[j] == if addr <= j < addr + len then 0xFF else chip[j]
  {
    seq(|chip|, j requires 0 <= j < |chip| => if addr <= j < addr + len then 0xFF else chip[j])
  }

  lemma {:induction false} CellsFirst(addr: nat, first: Byte, rest: seq<Byte>)
    ensures Cells(addr, [first] + rest) == [Cell(addr, first)] + Cells(addr + 1, rest)
  {
    assert ([first] + rest)[1..] == rest;
  }

  lemma {:induction false} CellsConcat(addr: nat, a: seq<Byte>, b: seq<Byte>)
    ensures Cells(addr, a + b) == Cells(addr, a) + Cells(addr + |a|, b)
    decreases |a|
  {
    if a == [] {
      assert a + b == b;
    } else {
      var first, rest := a[0], a[1..];
      assert a == [first] + rest && a + b == [first] + (rest + b);
      CellsFirst(addr, first, rest);
      CellsFirst(addr, first, rest + b);
      CellsConcat(addr + 1, rest, b);
      Assoc([Cell(addr, first)], Cells(addr + 1, rest), Cells(addr + |a|, b));
    }
  }

  lemma {:induction false} CellsAt(addr: nat, data: seq<Byte>, i: nat)
    requires i < |data|
    ensures |Cells(addr, data)| == |data| && Cells(addr, data)[i] == Cell(addr + i, data[i])
    decreases |data|
  {
    if |data| > 1 {
      CellsAt(addr + 1, data[1..], if i > 0 then i - 1 else 0);
    } else {
      assert data[1..] == [];
    }
  }

  /** Writing a prefix, then the bytes that follow it, is writing the longer prefix. */
  lemma {:induction false} CellsExtend(addr: nat, data: seq<Byte>, i: nat, j: nat)
    requires i <= j <= |data|
    ensures Cells(addr, data[..i]) + Cells(addr + i, data[i..j]) == Cells(addr, data[..j])
  {
    var a, b := data[..i], data[i..j];
    assert data[..j] == a + b;
    CellsConcat(addr, a, b);
  }

  lemma {:induction false} Assoc(t: seq<Cell>, a: seq<Cell>, b: seq<Cell>)
    ensures t + a + b == t + (a + b)
  {
  }

  lemma {:induction false} TakeMore(t: seq<Cell>, addr: nat, data: seq<Byte>, i: nat, j: nat)
    requires i <= j <= |data|
    ensures (t + Cells(addr, data[..i])) + Cells(addr + i, data[i..j]) == t + Cells(addr, data[..j])
  {
    CellsExtend(addr, data, i, j);
    Assoc(t, Cells(addr, data[..i]), Cells(addr + i, data[i..j]));
  }

  lemma {:induction false} TakeNone(t: seq<Cell>, addr: nat, data: seq<Byte>)
    ensures t == t + Cells(addr, data[..0])
  {
  }

  lemma {:induction false} TakeEnd(t: seq<Cell>, addr: nat, data: seq<Byte>, n: nat)
    requires n <= |data|
    ensures (t + Cells(addr, data[..n])) + Cells(addr + n, data[n..]) == t + Cells(addr, data[..|data|])
  {
    assert data[n..|data|] == data[n..];
    TakeMore(t, addr, data, n, |data|);
  }

  lemma {:induction false} TakeRest(t: seq<Cell>, addr: nat, data: seq<Byte>, w: nat, n: nat)
    requires w + n <= |data|
    ensures (t + Cells(addr, data[..w])) + Cells(addr + w, data[w..][..n]) == t + Cells(addr, data[..w + n])
  {
    assert data[w..][..n] == data[w..w + n];
    TakeMore(t, addr, data, w, w + n);
  }

  lemma {:induction false} ValuesFirst(first: Cell, rest: seq<Cell>, j: nat)
    ensures ValuesAt([first] + rest, j) == (if first.addr == j then [first.value] else []) + ValuesAt(rest, j)
  {
    assert ([first] + rest)[1..] == rest;
  }

  lemma {:induction false} ValuesConcat(x: seq<Cell>, y: seq<Cell>, j: nat)
    ensures ValuesAt(x + y, j) == ValuesAt(x, j) + ValuesAt(y, j)
    decreases |x|
  {
    if x == [] {
      assert x + y == y;
    } else {
      var first, rest := x[0], x[1..];
      assert x == [first] + rest && x + y == [first] + (rest + y);
      ValuesFirst(first, rest, j);
      ValuesFirst(first, rest + y, j);
      ValuesConcat(rest, y, j);
      assert (if first.addr == j then [first.value] else []) + (ValuesAt(rest, j) + ValuesAt(y, j))
          == ((if first.addr == j then [first.value] else []) + ValuesAt(rest, j)) + ValuesAt(y, j);
    }
  }

  lemma {:induction false} MaskedConcat(b: Byte, v: seq<Byte>, w: seq<Byte>)
    ensures Masked(b, v + w) == Masked(Masked(b, v), w)
    decreases |v|
  {
    if v == [] {
      assert v + w == w;
    } else {
      assert (v + w)[1..] == v[1..] + w && (v + w)[0] == v[0];
      MaskedConcat(b & v[0], v[1..], w);
    }
  }

  lemma {:induction false} BurnConcat(chip: Chip, a: seq<Cell>, b: seq<Cell>)
    ensures Burn(chip, a + b) == Burn(Burn(chip, a), b)
  {
    var once, twice := Burn(chip, a + b), Burn(Burn(chip, a), b);
    forall j | 0 <= j < |chip| ensures once[j] == twice[j] {
      ValuesConcat(a, b, j);
      MaskedConcat(chip[j], ValuesAt(a, j), ValuesAt(b, j));
    }
  }

  /** A block programs each of its addresses once, and no other. */
  lemma {:induction false} ValuesBlock(addr: nat, data: seq<Byte>, j: nat)
    ensures ValuesAt(Cells(addr, data), j) == if addr <= j < addr + |data| then [data[j - addr]] else []
    decreases |data|
  {
    if data != [] {
      var first, rest := data[0], data[1..];
      assert data == [first] + rest;
      CellsFirst(addr, first, rest);
      ValuesFirst(Cell(addr, first), Cells(addr + 1, rest), j);
      ValuesBlock(addr + 1, rest, j);
      assert addr < j < addr + |data| ==> rest[j - (addr + 1)] == data[j - addr];
    }
  }

  lemma {:induction false} MaskedOnce(b: Byte, v: Byte)
    ensures Masked(b, []) == b && Masked(b, [v]) == b & v
  {
    assert [v][1..] == [];
  }

  /** Programming a block, byte by byte: each byte is ANDed once and nothing else changes. */
  lemma {:induction false} BurnAt(chip: Chip, addr: nat, data: seq<Byte>, j: nat)
    requires j < |chip|
    ensures Burn(chip, Cells(addr, data))[j]
         == if addr <= j < addr + |data| then chip[j] & data[j - addr] else chip[j]
  {
    ValuesBlock(addr, data, j);
    MaskedOnce(chip[j], if addr <= j < addr + |data| then data[j - addr] else 0);
  }

  /** Where the chip is erased, programming stores the data. */
  lemma {:induction false} BurnBlank(chip: Chip, addr: nat, data: seq<Byte>, j: nat)
    requires addr <= j < addr + |data| && j < |chip| && chip[j] == 0xFF
    ensures Burn(chip, Cells(addr, data))[j] == data[j - addr]
  {
    BurnAt(chip, addr, data, j);
    var b := data[j - addr];
    assert 0xFF & b == b;
  }

  predicate TornAt(left: Chip, chip: Chip, target: Chip, j: nat)
    requires j < |left| == |chip| == |target|
  {
    left[j] & chip[j] == left[j] && target[j] & left[j] == target[j]
  }

  /** A program command that failed midway has cleared some of the bits it should clear, and no others. */
  ghost predicate Torn(left: Chip, chip: Chip, target: Chip) {
    && |left| == |chip| == |target|
    && forall j :: 0 <= j < |chip| ==> TornAt(left, chip, target, j)
  }

  lemma {:induction false} TornByte(left: Byte, byte: Byte, value: Byte)
    requires left & byte == left && (byte & value) & left == byte & value
    ensures left & value == byte & value
  {
  }

  lemma {:induction false} TornNothing(left: Byte, byte: Byte)
    requires left & byte == left && byte & left == byte
    ensures left == byte
  {
  }

  predicate BurntAt(r: Chip, chip: Chip, addr: nat, data: seq<Byte>, j: nat)
    requires j < |r| == |chip|
  {
    r[j] == if addr <= j < addr + |data| then chip[j] & data[j - addr] else chip[j]
  }

  /** `r` is `chip` after a block was programmed (see BurnAt). */
  ghost predicate Burnt(r: Chip, chip: Chip, addr: nat, data: seq<Byte>) {
    |r| == |chip| && forall j :: 0 <= j < |r| ==> BurntAt(r, chip, addr, data, j)
  }

  lemma {:induction false} BurnIsBurnt(chip: Chip, addr: nat, data: seq<Byte>)
    ensures Burnt(Burn(chip, Cells(addr, data)), chip, addr, data)
  {
    var r := Burn(chip, Cells(addr, data));
    forall j | 0 <= j < |r| ensures BurntAt(r, chip, addr, data, j) {
      BurnAt(chip, addr, data, j);
    }
  }

  lemma {:induction false} RetryByte(chip: Chip, left: Chip, target: Chip, again: Chip, addr: nat, data: seq<Byte>, j: nat)
    requires j < |chip| == |left| == |target| == |again| && TornAt(left, chip, target, j)
    requires BurntAt(target, chip, addr, data, j) && BurntAt(again, left, addr, data, j)
    ensures again[j] == target[j]
  {
    if addr <= j < addr + |data| {
      TornByte(left[j], chip[j], data[j - addr]);
    } else {
      TornNothing(left[j], chip[j]);
    }
  }

  lemma {:induction false} RetryBytes(chip: Chip, left: Chip, target: Chip, again: Chip, addr: nat, data: seq<Byte>)
    requires Torn(left, chip, target) && Burnt(target, chip, addr, data) && Burnt(again, left, addr, data)
    ensures again == target
  {
    forall j | 0 <= j < |chip| ensures again[j] == target[j] {
      RetryByte(chip, left, target, again, addr, data, j);
    }
  }

  /** Whatever a failed command left behind, programming the same data again does what it should have done at once. */
  lemma {:induction false} RetryRepairs(chip: Chip, left: Chip, addr: nat, data: seq<Byte>)
    requires Torn(left, chip, Burn(chip, Cells(addr, data)))
    ensures Burn(left, Cells(addr, data)) == Burn(chip, Cells(addr, data))
  {
    BurnIsBurnt(chip, addr, data);
    BurnIsBurnt(left, addr, data);
    RetryBytes(chip, left, Burn(chip, Cells(addr, data)), Burn(left, Cells(addr, data)), addr, data);
  }

  /** A chain of failed attempts at the same data, each starting from what the one before left. */
  ghost predicate Attempts(chips: seq<Chip>, addr: nat, data: seq<Byte>) {
    forall k :: 0 < k < |chips| ==> Torn(chips[k], chips[k - 1], Burn(chips[k - 1], Cells(addr, data)))
  }

  /** However often it failed before, the first attempt that succeeds makes up for all of them. */
  lemma {:induction false} RetriesRepair(chips: seq<Chip>, addr: nat, data: seq<Byte>)
    requires chips != [] && Attempts(chips, addr, data)
    ensures Burn(chips[|chips| - 1], Cells(addr, data)) == Burn(chips[0], Cells(addr, data))
    decreases |chips|
  {
    var n := |chips| - 1;
    if n > 0 {
      RetriesRepair(chips[..n], addr, data);
      RetryRepairs(chips[n - 1], chips[n], addr, data);
    }
  }

  predicate ClearsNothingAt(chip: Chip, addr: nat, data: seq<Byte>, j: nat)
    requires addr <= j < addr + |data| && j < |chip|
  {
    chip[j] & data[j - addr] == chip[j]
  }

  /** Every bit the data would clear is clear already. */
  ghost predicate ClearsNothing(chip: Chip, addr: nat, data: seq<Byte>) {
    forall j :: addr <= j < addr + |data| && j < |chip| ==> ClearsNothingAt(chip, addr, data, j)
  }

  /** Programming a block leaves the chip as it was exactly when it clears nothing. */
  lemma {:induction false} UnchangedExactly(chip: Chip, addr: nat, data: seq<Byte>)
    ensures Burn(chip, Cells(addr, data)) == chip <==> ClearsNothing(chip, addr, data)
  {
    BurnIsBurnt(chip, addr, data);
    var r := Burn(chip, Cells(addr, data));
    if r == chip {
      forall j | addr <= j < addr + |data| && j < |chip| ensures ClearsNothingAt(chip, addr, data, j) {
        assert BurntAt(r, chip, addr, data, j);
      }
    }
    if ClearsNothing(chip, addr, data) {
      forall j | 0 <= j < |chip| ensures r[j] == chip[j] {
        assert BurntAt(r, chip, addr, data, j);
        if addr <= j < addr + |data| {
          assert ClearsNothingAt(chip, addr, data, j);
        }
      }
    }
  }

  // ----- page arithmetic -----

  /** The offset of an address in its page, that is `a % page` (see OffsetIsMod). */
  function Offset(a: nat, page: nat): (r: nat)
    requires page > 0
    ensures r < page && r <= a
  {
    if a < page then a else Offset(a - page, page)
  }

  /** The start of the page that holds the address. */
  function RoundDown(a: nat, page: nat): (r: nat)
    requires page > 0
    ensures r <= a < r + page
  {
    a - Offset(a, page)
  }

  lemma {:induction false} OffsetIsMod(a: nat, page: nat)
    requires page > 0
    ensures Offset(a, page) == a % page
  {
    if a >= page {
      OffsetIsMod(a - page, page);
      var q := (a - page) / page;
      assert a - page == q * page + (a - page) % page;
      assert a == (q + 1) * page + (a - page) % page;
      ModUnique(a, q + 1, (a - page) % page, page);
    }
  }

  lemma {:induction false} LaterPage(q: nat, q': nat, m: nat, page: nat)
    requires q < q' && m < page
    ensures q * page + m < q' * page
  {
    assert q' * page == q * page + (q' - q) * page;
    assert (q' - q) * page == page + (q' - q - 1) * page;
  }

  lemma {:induction false} ModUnique(x: nat, q: nat, m: nat, page: nat)
    requires page > 0 && x == q * page + m && m < page
    ensures x % page == m
  {
    var q', r := x / page, x % page;
    assert x == q' * page + r;
    if q' > q {
      LaterPage(q, q', m, page);
    } else if q > q' {
      LaterPage(q', q, r, page);
    }
  }

  /** Adding within a page moves the offset; reaching the end of the page resets it. */
  lemma {:induction false} OffsetAdd(a: nat, n: nat, page: nat)
    requires page > 0 && Offset(a, page) + n <= page
    ensures Offset(a + n, page) == if Offset(a, page) + n < page then Offset(a, page) + n else 0
  {
    if a >= page {
      OffsetAdd(a - page, n, page);
    }
  }

  lemma {:induction false} RoundDownOffset(a: nat, page: nat)
    requires page > 0
    ensures Offset(RoundDown(a, page), page) == 0
  {
    if a >= page {
      RoundDownOffset(a - page, page);
    }
  }

  // ----- multiples of a block size -----

  predicate Multiple(x: nat, m: nat)
    requires m > 0
  {
    Offset(x, m) == 0
  }

  lemma {:induction false} MultipleAdd(x: nat, y: nat, m: nat)
    requires m > 0 && Multiple(x, m) && Multiple(y, m)
    ensures Multiple(x + y, m)
  {
    if x >= m {
      MultipleAdd(x - m, y, m);
    }
  }

  lemma {:induction false} MultipleSub(x: nat, y: nat, m: nat)
    requires m > 0 && y <= x && Multiple(x, m) && Multiple(y, m)
    ensures Multiple(x - y, m)
  {
    if y >= m {
      MultipleSub(x - m, y - m, m);
    }
  }

  lemma {:induction false} MultipleTrans(x: nat, f: nat, e: nat)
    requires f > 0 && e > 0 && Multiple(x, f) && Multiple(f, e)
    ensures Multiple(x, e)
  {
    if x >= f {
      MultipleTrans(x - f, f, e);
      MultipleAdd(x - f, f, e);
    }
  }

  lemma {:induction false} MultipleOffset(x: nat, f: nat, e: nat)
    requires f > 0 && e > 0 && Multiple(x, e) && Multiple(f, e)
    ensures Multiple(Offset(x, f), e)
  {
    if x >= f {
      MultipleSub(x, f, e);
      MultipleOffset(x - f, f, e);
    }
  }

  lemma {:induction false} MultipleDiv(x: nat, m: nat)
    requires m > 0 && Multiple(x, m)
    ensures x / m * m == x
  {
    OffsetIsMod(x, m);
  }

  lemma {:induction false} RoundDownMultiple(x: nat, m: nat)
    requires m > 0
    ensures x / m * m == RoundDown(x, m)
  {
    OffsetIsMod(x, m);
  }
}
