/**
  What a load or store multiple (increment after) does: the i-th listed register, counting from
  the lowest, goes with the i-th word from the base address. Words are little-endian and need not be aligned;
  addresses wrap at 2^32. Memory is the whole 32-bit address space.
 */
module MultipleTransfer {
  import opened Words

  const Space: nat := 0x1_0000_0000

  type Memory = m: seq<U8> | |m| == Space witness seq(Space, _ => 0)
  type Regs = r: seq<U32> | |r| == 16 witness seq(16, _ => 0)

  /** A decoded instruction; bit i of `list` is register i. */
  datatype Insn = Insn(load: bool, base: nat, list: List, writeback: bool, size: Size)

  type Size = n: nat | n == 2 || n == 4 witness 2

  datatype Cpu = Cpu(regs: Regs, mem: Memory)

  // ----- decoding -----

  /** The low n bits of a register list, lowest first. */
  function Bits(list: bv32, n: nat): (r: seq<bool>)
    ensures |r| == n
  {
    if n == 0 then [] else [list & 1 == 1] + Bits(list >> 1, n - 1)
  }

  /** Shifting n times leaves nothing. */
  predicate Fits(list: bv32, n: nat) {
    if n == 0 then list == 0 else Fits(list >> 1, n - 1)
  }

  function Register(field: bv32): (r: nat)
    ensures r < 16
  {
    (field & 0xF) as bv4 as nat
  }

  /** The fields of an encoding. */
  datatype Fields = Fields(load: bool, base: bv32, list: bv32, writeback: bool, size: Size)

  /** The encodings the handler accepts, from the first two halfwords at the program counter. */
  function Split(hw1: bv32, hw2: bv32): (r: Option<Fields>) {
    var wide := (hw1 << 16) | hw2;
    if hw1 & 0xF000 == 0xC000 then
      Some(Fields(hw1 & 0x0800 != 0, (hw1 >> 8) & 7, hw1 & 0xFF, true, 2))
    else if wide & 0xFFC0_0000 == 0xE880_0000 then
      Some(Fields(wide & 0x0010_0000 != 0, (wide >> 16) & 0xF, wide & 0xFFFF, wide & 0x0020_0000 != 0, 4))
    else None
  }

  function ToInsn(f: Fields): (r: Insn)
    ensures r.base < 16
  {
    Insn(f.load, Register(f.base), Bits(f.list, 16), f.writeback, f.size)
  }

  function Decode(hw1: bv32, hw2: bv32): (r: Option<Insn>) {
    var f := Split(hw1, hw2);
    if f.Some? then Some(ToInsn(f.value)) else None
  }

  /** Both encodings name a register list of at most sixteen bits and a register that exists. */
  lemma {:induction false} SplitBounds(hw1: bv32, hw2: bv32)
    ensures Split(hw1, hw2).Some? ==> Split(hw1, hw2).value.list & 0xFFFF == Split(hw1, hw2).value.list
    ensures Split(hw1, hw2).Some? ==> Split(hw1, hw2).value.base & 0xF == Split(hw1, hw2).value.base
  {
  }

  /** LDMIA and STMIA as the assembler writes them: 1100 L Rn list, and 1110 1000 10 W L Rn, list. */
  function Encode16(load: bool, base: bv32, list: bv32): (hw: bv32) {
    0xC000 | (if load then 0x0800 else 0) | (base << 8) | list
  }

  function Encode32(load: bool, base: bv32, writeback: bool): (hw: bv32) {
    0xE880 | (if writeback then 0x20 else 0) | (if load then 0x10 else 0) | base
  }

  /** The halfwords encode an instruction with these fields. */
  predicate Encodes(f: Fields, hw1: bv32, hw2: bv32) {
    if f.size == 2 then
      f.writeback && f.base & 7 == f.base && f.list & 0xFF == f.list && hw1 == Encode16(f.load, f.base, f.list)
    else
      && f.base & 0xF == f.base && f.list & 0xFFFF == f.list
      && hw1 == Encode32(f.load, f.base, f.writeback) && hw2 == f.list
  }

  lemma {:induction false} Apart16(load: bool, base: bv32, list: bv32)
    requires base & 7 == base && list & 0xFF == list
    ensures var hw := Encode16(load, base, list);
      hw & 0xF000 == 0xC000 && (hw & 0x0800 != 0) == load && (hw >> 8) & 7 == base && hw & 0xFF == list
  {
  }

  lemma {:induction false} Take16(load: bool, base: bv32, list: bv32, hw: bv32)
    requires base & 7 == base && list & 0xFF == list
    ensures Split(Encode16(load, base, list), hw) == Some(Fields(load, base, list, true, 2))
  {
    Apart16(load, base, list);
  }

  lemma {:induction false} Take32(load: bool, base: bv32, list: bv32, writeback: bool)
    requires base & 0xF == base && list & 0xFFFF == list
    ensures Split(Encode32(load, base, writeback), list) == Some(Fields(load, base, list, writeback, 4))
  {
  }

  lemma {:induction false} Give16(hw: bv32)
    requires hw & 0xFFFF == hw && hw & 0xF000 == 0xC000
    ensures hw == Encode16(hw & 0x0800 != 0, (hw >> 8) & 7, hw & 0xFF)
    ensures ((hw >> 8) & 7) & 7 == (hw >> 8) & 7 && (hw & 0xFF) & 0xFF == hw & 0xFF
  {
  }

  lemma {:induction false} Give32(hw1: bv32, hw2: bv32, wide: bv32)
    requires hw1 & 0xFFFF == hw1 && hw2 & 0xFFFF == hw2
    requires wide == (hw1 << 16) | hw2 && wide & 0xFFC0_0000 == 0xE880_0000
    ensures hw1 == Encode32(wide & 0x0010_0000 != 0, (wide >> 16) & 0xF, wide & 0x0020_0000 != 0)
    ensures hw2 == wide & 0xFFFF
    ensures ((wide >> 16) & 0xF) & 0xF == (wide >> 16) & 0xF && (wide & 0xFFFF) & 0xFFFF == wide & 0xFFFF
  {
  }

  lemma {:induction false} EncodingsAccepted(f: Fields, hw1: bv32, hw2: bv32)
    requires Encodes(f, hw1, hw2)
    ensures Split(hw1, hw2) == Some(f)
  {
    if f.size == 2 {
      Take16(f.load, f.base, f.list, hw2);
    } else {
      Take32(f.load, f.base, f.list, f.writeback);
    }
  }

  lemma {:induction false} OnlyEncodings(hw1: bv32, hw2: bv32)
    requires hw1 & 0xFFFF == hw1 && hw2 & 0xFFFF == hw2 && Split(hw1, hw2).Some?
    ensures Encodes(Split(hw1, hw2).value, hw1, hw2)
  {
    if hw1 & 0xF000 == 0xC000 {
      Give16(hw1);
    } else {
      Give32(hw1, hw2, (hw1 << 16) | hw2);
    }
  }

  /** Two halfwords are accepted with certain fields exactly when they are the assembler's encoding of them. */
  lemma {:induction false} SplitExactly(f: Fields, hw1: bv32, hw2: bv32)
    requires hw1 & 0xFFFF == hw1 && hw2 & 0xFFFF == hw2
    ensures Split(hw1, hw2) == Some(f) <==> Encodes(f, hw1, hw2)
  {
    if Encodes(f, hw1, hw2) {
      EncodingsAccepted(f, hw1, hw2);
    }
    if Split(hw1, hw2).Some? {
      OnlyEncodings(hw1, hw2);
    }
  }

  /** The list whose bits these are. */
  function Pack(bits: seq<bool>): (r: bv32) {
    if bits == [] then 0 else (Pack(bits[1..]) << 1) | (if bits[0] then 1 else 0)
  }

  lemma {:induction false} PackStep(list: bv32)
    ensures ((list >> 1) << 1) | (if list & 1 == 1 then 1 else 0) == list
  {
  }

  /** Bit i of a register list is element i of its bits. */
  lemma {:induction false} PackBits(list: bv32, n: nat)
    requires Fits(list, n)
    ensures Pack(Bits(list, n)) == list
    decreases n
  {
    if n > 0 {
      FitsStep(list, n);
      PackBits(list >> 1, n - 1);
      assert Bits(list, n)[1..] == Bits(list >> 1, n - 1);
      PackStep(list);
    }
  }

  /** A register field is the register's number. */
  lemma {:induction false} RegisterNumbers()
    ensures Register(0) == 0 && Register(1) == 1 && Register(2) == 2 && Register(3) == 3
    ensures Register(4) == 4 && Register(5) == 5 && Register(6) == 6 && Register(7) == 7
    ensures Register(8) == 8 && Register(9) == 9 && Register(10) == 10 && Register(11) == 11
    ensures Register(12) == 12 && Register(13) == 13 && Register(14) == 14 && Register(15) == 15
  {
  }

  lemma {:induction false} ShiftWithin(list: bv32, limit: bv32)
    requires list & limit == list
    ensures (list >> 1) & (limit >> 1) == list >> 1
  {
  }

  lemma {:induction false} NothingWithin(list: bv32)
    requires list & 0 == list
    ensures list == 0
  {
  }

  lemma {:induction false} FitsStep(list: bv32, n: nat)
    requires n > 0
    ensures Fits(list, n) <==> Fits(list >> 1, n - 1)
  {
  }

  lemma {:induction false} FitsWithin(list: bv32, limit: bv32, n: nat)
    requires list & limit == list && Fits(limit, n)
    ensures Fits(list, n)
    decreases n
  {
    if n == 0 {
      NothingWithin(list);
    } else {
      ShiftWithin(list, limit);
      var l, m := list >> 1, limit >> 1;
      FitsStep(limit, n);
      FitsWithin(l, m, n - 1);
      FitsStep(list, n);
    }
  }

  lemma {:induction false} SixteenBitsFit(list: bv32)
    requires list & 0xFFFF == list
    ensures Fits(list, 16)
  {
    assert Fits(0x1, 1) && Fits(0x3, 2) && Fits(0x7, 3) && Fits(0xF, 4);
    assert Fits(0x1F, 5) && Fits(0x3F, 6) && Fits(0x7F, 7) && Fits(0xFF, 8);
    assert Fits(0x1FF, 9) && Fits(0x3FF, 10) && Fits(0x7FF, 11) && Fits(0xFFF, 12);
    assert Fits(0x1FFF, 13) && Fits(0x3FFF, 14) && Fits(0x7FFF, 15) && Fits(0xFFFF, 16);
    FitsWithin(list, 0xFFFF, 16);
  }

  lemma {:induction false} NoBits(n: nat, i: nat)
    requires i < n
    ensures !Bits(0, n)[i]
  {
    if i > 0 {
      NoBits(n - 1, i - 1);
    }
  }

  // ----- memory -----

  function At(a: U32, k: nat): (r: U32)
    requires k <= 64
    ensures r == a + k || r == a + k - Space
  {
    if a + k < Space then a + k else a + k - Space
  }

  function ByteOf(x: U32, j: nat): (r: U8)
    requires j < 4
  {
    if j == 0 then x % 0x100
    else if j == 1 then x / 0x100 % 0x100
    else if j == 2 then x / 0x1_0000 % 0x100
    else x / 0x100_0000
  }

  function LoadWord(mem: Memory, a: U32): (r: U32) {
    var b0: int, b1: int, b2: int, b3: int := mem[a], mem[At(a, 1)], mem[At(a, 2)], mem[At(a, 3)];
    b0 + 0x100 * b1 + 0x1_0000 * b2 + 0x100_0000 * b3
  }

  lemma {:induction false} Digits(x: nat, b0: U8, b1: U8, b2: U8, b3: U8)
    requires x == b0 + 0x100 * b1 + 0x1_0000 * b2 + 0x100_0000 * b3
    ensures x % 0x100 == b0 && x / 0x100 % 0x100 == b1 && x / 0x1_0000 % 0x100 == b2 && x / 0x100_0000 == b3
  {
    assert x / 0x100 == b1 + 0x100 * b2 + 0x1_0000 * b3;
    assert x / 0x1_0000 == b2 + 0x100 * b3;
  }

  /** Words are little-endian: the byte at the address itself is the lowest. */
  lemma {:induction false} LowestFirst(mem: Memory, a: U32)
    ensures LoadWord(mem, a) % 0x100 == mem[a] && LoadWord(mem, a) / 0x100_0000 == mem[At(a, 3)]
    ensures LoadWord(mem, a) / 0x100 % 0x100 == mem[At(a, 1)] && LoadWord(mem, a) / 0x1_0000 % 0x100 == mem[At(a, 2)]
  {
    Digits(LoadWord(mem, a), mem[a], mem[At(a, 1)], mem[At(a, 2)], mem[At(a, 3)]);
  }

  function StoreWord(mem: Memory, a: U32, x: U32): (r: Memory) {
    mem[a := ByteOf(x, 0)][At(a, 1) := ByteOf(x, 1)][At(a, 2) := ByteOf(x, 2)][At(a, 3) := ByteOf(x, 3)]
  }

  /** The byte at address b when the words `vals` stand one after the other from `base`. */
  function StoredByte(mem: Memory, base: U32, vals: seq<U32>, b: U32): (r: U8) {
    var o := Sub32(b, base);
    if o < 4 * |vals| then ByteOf(vals[o / 4], o % 4) else mem[b]
  }

  function Stored(mem: Memory, base: U32, vals: seq<U32>): (r: Memory)
    ensures forall b :: 0 <= b < Space ==> r[b] == StoredByte(mem, base, vals, b)
  {
    seq(Space, b requires 0 <= b < Space => StoredByte(mem, base, vals, b))
  }

  lemma {:induction false} SplitWord(x: U32)
    ensures x == ByteOf(x, 0) + 0x100 * ByteOf(x, 1) + 0x1_0000 * ByteOf(x, 2) + 0x100_0000 * ByteOf(x, 3)
  {
    assert x / 0x100 / 0x100 == x / 0x1_0000;
    assert x / 0x1_0000 / 0x100 == x / 0x100_0000;
  }

  lemma {:induction false} StoredByteMore(mem: Memory, base: U32, vals: seq<U32>, x: U32, b: U32)
    requires |vals| < 16
    ensures var o := Sub32(b, base);
      StoredByte(mem, base, vals + [x], b) ==
      if 4 * |vals| <= o < 4 * |vals| + 4 then ByteOf(x, o - 4 * |vals|) else StoredByte(mem, base, vals, b)
  {
    var o := Sub32(b, base);
    if 4 * |vals| <= o < 4 * |vals| + 4 {
      assert o / 4 == |vals|;
    }
  }

  lemma {:induction false} StoreWordByte(mem: Memory, a: U32, x: U32, b: U32)
    ensures StoreWord(mem, a, x)[b] == if Sub32(b, a) < 4 then ByteOf(x, Sub32(b, a)) else mem[b]
  {
  }

  /** Storing one more word after those already stored. */
  lemma {:induction false} StoredMore(mem: Memory, base: U32, vals: seq<U32>, x: U32)
    requires |vals| < 16
    ensures StoreWord(Stored(mem, base, vals), At(base, 4 * |vals|), x) == Stored(mem, base, vals + [x])
  {
    var m := Stored(mem, base, vals);
    var a := At(base, 4 * |vals|);
    forall b | 0 <= b < Space
      ensures StoreWord(m, a, x)[b] == Stored(mem, base, vals + [x])[b]
    {
      StoreWordByte(m, a, x, b);
      StoredByteMore(mem, base, vals, x, b);
    }
  }

  /** Each stored word can be loaded back from its place, and no byte outside them changes. */
  lemma {:induction false} StoredReadsBack(mem: Memory, base: U32, vals: seq<U32>, k: nat)
    requires k < |vals| <= 16
    ensures LoadWord(Stored(mem, base, vals), At(base, 4 * k)) == vals[k]
    ensures forall b :: 0 <= b < Space && Sub32(b, base) >= 4 * |vals| ==> Stored(mem, base, vals)[b] == mem[b]
  {
    var a := At(base, 4 * k);
    var m := Stored(mem, base, vals);
    SplitWord(vals[k]);
    assert Sub32(a, base) == 4 * k;
    assert m[a] == ByteOf(vals[k], 0);
    assert m[At(a, 1)] == ByteOf(vals[k], 1);
    assert m[At(a, 2)] == ByteOf(vals[k], 2);
    assert m[At(a, 3)] == ByteOf(vals[k], 3);
  }

  // ----- the transfer -----

  type List = l: seq<bool> | |l| == 16 witness seq(16, _ => false)

  /** How many of registers 0 to i-1 are listed. */
  function Count(list: List, i: nat): (r: nat)
    requires i <= 16
    ensures r <= i
  {
    if i == 0 then 0 else Count(list, i - 1) + if list[i - 1] then 1 else 0
  }

  function Listed(list: List, i: nat): (r: set<nat>)
    requires i <= 16
  {
    set j: nat | j < i && list[j]
  }

  lemma {:induction false} CountIsSize(list: List, i: nat)
    requires i <= 16
    ensures Count(list, i) == |Listed(list, i)|
  {
    if i > 0 {
      CountIsSize(list, i - 1);
      assert Listed(list, i) == Listed(list, i - 1) + if list[i - 1] then {i - 1} else {};
    }
  }

  /** The values of the listed registers among 0 to i-1, lowest first. */
  function Values(regs: Regs, list: List, i: nat): (r: seq<U32>)
    requires i <= 16
    ensures |r| == Count(list, i)
  {
    if i == 0 then [] else Values(regs, list, i - 1) + if list[i - 1] then [regs[i - 1]] else []
  }

  lemma {:induction false} ValuesAt(regs: Regs, list: List, i: nat, n: nat)
    requires i < n <= 16 && list[i]
    ensures Count(list, i) < Count(list, n) && Values(regs, list, n)[Count(list, i)] == regs[i]
    decreases n
  {
    if i < n - 1 {
      ValuesAt(regs, list, i, n - 1);
    }
  }

  function LoadedReg(cpu: Cpu, list: List, base: U32, n: nat, r: nat): (x: U32)
    requires n <= 16 && r < 16
  {
    if r < n && list[r] then LoadWord(cpu.mem, At(base, 4 * Count(list, r))) else cpu.regs[r]
  }

  function Loaded(cpu: Cpu, list: List, base: U32, n: nat): (r: Regs)
    requires n <= 16
    ensures forall i :: 0 <= i < 16 ==> r[i] == LoadedReg(cpu, list, base, n, i)
  {
    seq(16, i requires 0 <= i < 16 => LoadedReg(cpu, list, base, n, i))
  }

  /** The listed registers among 0 to n-1 exchanged with memory at `base`. */
  function Transferred(cpu: Cpu, load: bool, list: List, base: U32, n: nat): (r: Cpu)
    requires n <= 16
  {
    if load then Cpu(Loaded(cpu, list, base, n), cpu.mem)
    else Cpu(cpu.regs, Stored(cpu.mem, base, Values(cpu.regs, list, n)))
  }

  lemma {:induction false} TransferNone(cpu: Cpu, load: bool, list: List, base: U32)
    ensures Transferred(cpu, load, list, base, 0) == cpu
  {
    assert Loaded(cpu, list, base, 0) == cpu.regs;
    assert Stored(cpu.mem, base, []) == cpu.mem;
  }

  lemma {:induction false} TransferSkip(cpu: Cpu, load: bool, list: List, base: U32, n: nat)
    requires n < 16 && !list[n]
    ensures Transferred(cpu, load, list, base, n + 1) == Transferred(cpu, load, list, base, n)
  {
    assert Loaded(cpu, list, base, n + 1) == Loaded(cpu, list, base, n);
  }

  lemma {:induction false} TransferRest(cpu: Cpu, load: bool, list: List, base: U32, n: nat)
    requires n <= 16 && forall i :: n <= i < 16 ==> !list[i]
    ensures Transferred(cpu, load, list, base, 16) == Transferred(cpu, load, list, base, n)
    ensures Count(list, 16) == Count(list, n)
    decreases 16 - n
  {
    if n < 16 {
      TransferSkip(cpu, load, list, base, n);
      TransferRest(cpu, load, list, base, n + 1);
    }
  }

  lemma {:induction false} TransferLoad(cpu: Cpu, list: List, base: U32, n: nat)
    requires n < 16 && list[n]
    ensures var t := Transferred(cpu, true, list, base, n);
      Transferred(cpu, true, list, base, n + 1) ==
      t.(regs := t.regs[n := LoadWord(t.mem, At(base, 4 * Count(list, n)))])
  {
    var t := Transferred(cpu, true, list, base, n);
    assert Loaded(cpu, list, base, n + 1) == t.regs[n := LoadWord(t.mem, At(base, 4 * Count(list, n)))];
  }

  lemma {:induction false} TransferStore(cpu: Cpu, list: List, base: U32, n: nat)
    requires n < 16 && list[n]
    ensures var t := Transferred(cpu, false, list, base, n);
      Transferred(cpu, false, list, base, n + 1) ==
      t.(mem := StoreWord(t.mem, At(base, 4 * Count(list, n)), t.regs[n]))
  {
    StoredMore(cpu.mem, base, Values(cpu.regs, list, n), cpu.regs[n]);
  }

  // ----- the whole instruction -----

  /** What the handler does: transfer, write the base back if asked, move past the instruction. */
  function Emulated(cpu: Cpu, insn: Insn): (r: Cpu)
    requires insn.base < 16
  {
    var base := cpu.regs[insn.base];
    var t := Transferred(cpu, insn.load, insn.list, base, 16);
    var regs := if insn.writeback then t.regs[insn.base := At(base, 4 * Count(insn.list, 16))] else t.regs;
    t.(regs := regs[15 := At(cpu.regs[15], insn.size)])
  }

  /** What LDM and STM do in section A7.7 of the ARMv7-M Architecture Reference Manual: a loaded base is not
      written back, and a loaded program counter is a branch. */
  function Architected(cpu: Cpu, insn: Insn): (r: Cpu)
    requires insn.base < 16
  {
    var base := cpu.regs[insn.base];
    var t := Transferred(cpu, insn.load, insn.list, base, 16);
    var back := insn.writeback && !(insn.load && insn.list[insn.base]);
    var regs := if back then t.regs[insn.base := At(base, 4 * Count(insn.list, 16))] else t.regs;
    var pc := if insn.load && insn.list[15] then t.regs[15] - t.regs[15] % 2 else At(cpu.regs[15], insn.size);
    t.(regs := regs[15 := pc])
  }

  /** The handler follows the manual on every register and memory state exactly when no load lists the
      program counter, or its own base with writeback. */
  lemma {:induction false} HandlerFollowsManualExactly(insn: Insn)
    requires insn.base < 15 && insn.base != 13 && !insn.list[13]
    ensures (forall cpu :: Emulated(cpu, insn) == Architected(cpu, insn)) <==>
      !(insn.load && (insn.list[15] || (insn.writeback && insn.list[insn.base])))
  {
    if insn.load && (insn.list[15] || (insn.writeback && insn.list[insn.base])) {
      var cpu := Cpu(seq(16, _ => 0), seq(Space, _ => 0));
      var t := Transferred(cpu, true, insn.list, 0, 16);
      assert t.regs[15] == 0 && t.regs[insn.base] == 0;
      if insn.list[15] {
        assert Emulated(cpu, insn).regs[15] != Architected(cpu, insn).regs[15];
      } else {
        ValuesAt(cpu.regs, insn.list, insn.base, 16);
        assert Emulated(cpu, insn).regs[insn.base] != Architected(cpu, insn).regs[insn.base];
      }
    }
  }

  /** Register by register and byte by byte, for a list without the program counter, and without the base if it is a
      load: the i-th listed register and the i-th word from the base are exchanged, the base moves past the last word
      if asked, the program counter moves past the instruction, and nothing else changes. */
  lemma {:induction false} EmulatedPointwise(cpu: Cpu, insn: Insn, r: nat)
    requires insn.base < 15 && r < 16 && !(insn.load && insn.list[insn.base]) && !insn.list[15]
    ensures var e, base, n := Emulated(cpu, insn), cpu.regs[insn.base], Count(insn.list, 16);
      && (insn.load && insn.list[r] ==> e.regs[r] == LoadWord(cpu.mem, At(base, 4 * Count(insn.list, r))))
      && (!insn.load && insn.list[r] ==> LoadWord(e.mem, At(base, 4 * Count(insn.list, r))) == cpu.regs[r])
      && (r != 15 && !(insn.load && insn.list[r]) && !(r == insn.base && insn.writeback) ==> e.regs[r] == cpu.regs[r])
      && (insn.writeback ==> e.regs[insn.base] == At(base, 4 * n))
      && e.regs[15] == At(cpu.regs[15], insn.size)
      && (insn.load ==> e.mem == cpu.mem)
      && (forall b :: 0 <= b < Space && Sub32(b, base) >= 4 * n ==> e.mem[b] == cpu.mem[b])
  {
    var base := cpu.regs[insn.base];
    if !insn.load && insn.list[r] {
      ValuesAt(cpu.regs, insn.list, r, 16);
      StoredReadsBack(cpu.mem, base, Values(cpu.regs, insn.list, 16), Count(insn.list, r));
    }
  }

  lemma {:induction false} LowTwo(i: nat)
    requires i < 16
    ensures Bits(3, 16)[i] <==> i < 2
  {
    assert Bits(3, 16) == [true] + Bits(1, 15);
    assert Bits(1, 15) == [true] + Bits(0, 14);
    if i >= 2 {
      NoBits(14, i - 2);
    }
  }

  /** LDMIA r1, {r0, r1}. */
  lemma {:induction false} DecodeExample()
    ensures Decode(0xC903, 0) == Some(Insn(true, 1, Bits(3, 16), true, 2))
  {
    assert Split(0xC903, 0) == Some(Fields(true, 1, 3, true, 2));
    assert Register(1) == 1;
  }

  /** For LDMIA r1, {r0, r1} the manual leaves the loaded value in r1, the handler the moved base. */
  lemma {:induction false} LoadedBaseIsOverwritten(cpu: Cpu)
    ensures Decode(0xC903, 0).Some?
    ensures var insn := Decode(0xC903, 0).value; var base := cpu.regs[1];
      && insn.load && insn.base == 1
      && Emulated(cpu, insn).regs[1] == At(base, 8)
      && Architected(cpu, insn).regs[1] == LoadWord(cpu.mem, At(base, 4))
  {
    DecodeExample();
    var list: List := Bits(3, 16);
    forall i | 0 <= i < 16
      ensures list[i] <==> i < 2
    {
      LowTwo(i);
    }
    TransferRest(cpu, true, list, cpu.regs[1], 2);
    assert Count(list, 1) == 1 && Count(list, 2) == 2;
  }
}
