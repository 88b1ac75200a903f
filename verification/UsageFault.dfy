/**
  The usage fault handler for unaligned load and store multiples, working in place on the two
  register frames that exception entry saved and on data memory, which are disjoint.
 */
module UsageFault {
  import opened Words
  import opened MultipleTransfer

  /** Where a register was saved: r0-r3, r12, lr, pc (and xpsr) by the hardware, r4-r11 by the handler's entry code. */
  datatype Place = Hardware(slot: nat) | Software(slot: nat) | Nowhere

  function GetRegisterPtr(r: nat): (p: Place)
    requires r < 16
    ensures p.Nowhere? <==> r == 13
    ensures p.Hardware? ==> p.slot < 7
    ensures p.Software? ==> p.slot < 8
  {
    if r < 4 then Hardware(r)
    else if r < 12 then Software(r - 4)
    else if r == 12 then Hardware(4)
    else if r > 13 then Hardware(r - 14 + 5)
    else Nowhere
  }

  /** No two registers share a place. */
  lemma {:induction false} PlacesDiffer(r: nat, q: nat)
    requires r < 16 && q < 16 && GetRegisterPtr(r) == GetRegisterPtr(q)
    ensures r == q
  {
  }

  function Fetch(hardware: seq<U32>, software: seq<U32>, sp: U32, r: nat): (x: U32)
    requires |hardware| >= 8 && |software| >= 8 && r < 16
  {
    match GetRegisterPtr(r)
    case Hardware(i) => hardware[i]
    case Software(i) => software[i]
    case Nowhere => sp
  }

  /** The registers the frames stand for; the stack pointer is not in them. */
  function Saved(hardware: seq<U32>, software: seq<U32>, sp: U32): (r: Regs)
    requires |hardware| >= 8 && |software| >= 8
    ensures forall i :: 0 <= i < 16 ==> r[i] == Fetch(hardware, software, sp, i)
  {
    seq(16, i requires 0 <= i < 16 => Fetch(hardware, software, sp, i))
  }

  /** The frames word by word: r0-r3 at the start of the hardware frame, then r12, lr and pc; r4-r11 in the other. */
  function Layout(hardware: seq<U32>, software: seq<U32>, sp: U32): (r: Regs)
    requires |hardware| >= 8 && |software| >= 8
  {
    hardware[..4] + software[..8] + [hardware[4], sp, hardware[5], hardware[6]]
  }

  /** The pointers the handler computes go to exactly these words. */
  lemma {:induction false} SavedIsLayout(hardware: seq<U32>, software: seq<U32>, sp: U32)
    requires |hardware| >= 8 && |software| >= 8
    ensures Saved(hardware, software, sp) == hardware[..4] + software[..8] + [hardware[4], sp, hardware[5], hardware[6]]
  {
  }

  /** The halfword at an address. */
  function HalfWord(mem: Memory, a: U32): (r: bv32) {
    ((mem[a] as bv8) as bv32) | (((mem[At(a, 1)] as bv8) as bv32) << 8)
  }

  /** Its lower byte is the one at the address, as in a word. */
  lemma {:induction false} HalfWordLow(mem: Memory, a: U32)
    ensures HalfWord(mem, a) & 0xFF == (mem[a] as bv8) as bv32
  {
  }

  lemma {:induction false} HalfWordHigh(mem: Memory, a: U32)
    ensures HalfWord(mem, a) >> 8 == (mem[At(a, 1)] as bv8) as bv32
  {
  }

  /** The bytes 03 C9 are LDMIA r1, {r0, r1}. */
  lemma {:induction false} Faulting16(cpu: Cpu)
    requires var pc := cpu.regs[15]; cpu.mem[pc] == 0x03 && cpu.mem[At(pc, 1)] == 0xC9
    ensures Faulting(cpu) == Some(Insn(true, 1, Bits(3, 16), true, 2))
  {
    var pc := cpu.regs[15];
    var hw1, hw2 := HalfWord(cpu.mem, pc), HalfWord(cpu.mem, At(pc, 2));
    assert hw1 == 0xC903;
    assert Encodes(Fields(true, 1, 3, true, 2), 0xC903, hw2);
    EncodingsAccepted(Fields(true, 1, 3, true, 2), 0xC903, hw2);
    RegisterNumbers();
  }

  /** The bytes B4 E8 03 00 are LDMIA.W r4!, {r0, r1}. */
  lemma {:induction false} Faulting32(cpu: Cpu)
    requires var pc := cpu.regs[15]; cpu.mem[pc] == 0xB4 && cpu.mem[At(pc, 1)] == 0xE8
    requires var pc2 := At(cpu.regs[15], 2); cpu.mem[pc2] == 0x03 && cpu.mem[At(pc2, 1)] == 0
    ensures Faulting(cpu) == Some(Insn(true, 4, Bits(3, 16), true, 4))
  {
    var pc := cpu.regs[15];
    assert HalfWord(cpu.mem, pc) == 0xE8B4;
    assert HalfWord(cpu.mem, At(pc, 2)) == 3;
    assert Encodes(Fields(true, 4, 3, true, 4), 0xE8B4, 3);
    EncodingsAccepted(Fields(true, 4, 3, true, 4), 0xE8B4, 3);
    RegisterNumbers();
  }

  /** The instruction the saved program counter points to, if it is one the handler knows. */
  function Faulting(cpu: Cpu): (r: Option<Insn>) {
    Decode(HalfWord(cpu.mem, cpu.regs[15]), HalfWord(cpu.mem, At(cpu.regs[15], 2)))
  }

  /** What a known instruction that the handler gives up on has done: nothing if its base is r13, and otherwise the
      transfers of the registers below r13. */
  function GivenUpAt(cpu: Cpu, insn: Insn): (r: Cpu)
    requires insn.base < 16
  {
    if insn.base == 13 then cpu else Transferred(cpu, insn.load, insn.list, cpu.regs[insn.base], 13)
  }

  /** A fault of another kind, or by another instruction, changes nothing. */
  function GivenUp(cpu: Cpu, unaligned: bool): (r: Cpu) {
    var insn := Faulting(cpu);
    if unaligned && insn.Some? then GivenUpAt(cpu, insn.value) else cpu
  }

  class Handler {
    const hardware: array<U32>    // faultingStackAddress
    const software: array<U32>    // machineStackAddress
    const mem: array<U8>

    ghost predicate Valid() {
      && hardware.Length >= 8 && software.Length >= 8 && hardware != software
      && mem.Length == Space
    }

    function View(sp: U32): (r: Cpu)
      requires Valid()
      reads hardware, software, mem
    {
      Cpu(Saved(hardware[..], software[..], sp), mem[..])
    }

    constructor (hardware: array<U32>, software: array<U32>, mem: array<U8>)
      ensures this.hardware == hardware && this.software == software && this.mem == mem
    {
      this.hardware, this.software, this.mem := hardware, software, mem;
    }

    method GetReg(r: nat, ghost sp: U32) returns (x: U32)
      requires Valid() && r < 16 && r != 13
      ensures x == View(sp).regs[r]
    {
      match GetRegisterPtr(r) {
        case Hardware(i) => x := hardware[i];
        case Software(i) => x := software[i];
      }
    }

    /** Changes one register and nothing else in either frame. */
    method SetReg(r: nat, x: U32, ghost sp: U32)
      requires Valid() && r < 16 && r != 13
      modifies hardware, software
      ensures View(sp) == old(View(sp)).(regs := old(View(sp)).regs[r := x])
      ensures hardware[7..] == old(hardware[7..]) && software[8..] == old(software[8..])
    {
      match GetRegisterPtr(r) {
        case Hardware(i) => hardware[i] := x;
        case Software(i) => software[i] := x;
      }
      forall q | 0 <= q < 16
        ensures Fetch(hardware[..], software[..], sp, q) == if q == r then x else old(View(sp)).regs[q]
      {
        if q != r && GetRegisterPtr(q) == GetRegisterPtr(r) {
          PlacesDiffer(q, r);
        }
      }
      assert View(sp).regs == old(View(sp)).regs[r := x];
    }

    method PutWord(a: U32, x: U32)
      requires Valid()
      modifies mem
      ensures mem[..] == StoreWord(old(mem[..]), a, x)
    {
      mem[a] := ByteOf(x, 0);
      mem[At(a, 1)] := ByteOf(x, 1);
      mem[At(a, 2)] := ByteOf(x, 2);
      mem[At(a, 3)] := ByteOf(x, 3);
    }

    method GetWord(a: U32) returns (x: U32)
      requires Valid()
      ensures x == LoadWord(mem[..], a)
    {
      var b0: int, b1: int, b2: int, b3: int := mem[a], mem[At(a, 1)], mem[At(a, 2)], mem[At(a, 3)];
      x := b0 + 0x100 * b1 + 0x1_0000 * b2 + 0x100_0000 * b3;
    }

    /** One listed register. */
    method Exchange(load: bool, r: nat, a: U32, ghost sp: U32)
      requires Valid() && r < 16 && r != 13
      modifies hardware, software, mem
      ensures var c := old(View(sp));
        View(sp) == if load then c.(regs := c.regs[r := LoadWord(c.mem, a)])
                    else c.(mem := StoreWord(c.mem, a, c.regs[r]))
      ensures hardware[7..] == old(hardware[7..]) && software[8..] == old(software[8..])
    {
      if load {
        var x := GetWord(a);
        SetReg(r, x, sp);
      } else {
        var x := GetReg(r, sp);
        PutWord(a, x);
      }
    }

    /** The next listed register, with those below it done. */
    method TransferOne(load: bool, i: nat, at: U32, ghost base: U32, ghost bits: List, ghost cpu: Cpu, ghost sp: U32)
      returns (next: U32)
      requires Valid() && i < 16 && i != 13 && bits[i]
      requires View(sp) == Transferred(cpu, load, bits, base, i) && at == At(base, 4 * Count(bits, i))
      modifies hardware, software, mem
      ensures View(sp) == Transferred(cpu, load, bits, base, i + 1)
      ensures next == At(base, 4 * Count(bits, i + 1))
      ensures hardware[7..] == old(hardware[7..]) && software[8..] == old(software[8..])
    {
      if load {
        TransferLoad(cpu, bits, base, i);
      } else {
        TransferStore(cpu, bits, base, i);
      }
      Exchange(load, i, at, sp);
      next := Add32(at, 4);
    }

    /** The loop over the register list. It stops at r13, after the registers below it. */
    method Transfer(load: bool, list: bv32, base: U32, ghost sp: U32) returns (ok: bool, next: U32)
      requires Valid() && Fits(list, 16)
      modifies hardware, software, mem
      ensures var bits := Bits(list, 16); var n := if ok then 16 else 13;
        && ok == !bits[13]
        && View(sp) == Transferred(old(View(sp)), load, bits, base, n)
        && next == At(base, 4 * Count(bits, n))
      ensures hardware[7..] == old(hardware[7..]) && software[8..] == old(software[8..])
    {
      ghost var cpu := View(sp);
      ghost var bits: List := Bits(list, 16);
      TransferNone(cpu, load, bits, base);
      var i := 0;
      var rest := list;
      next := base;
      while rest != 0
        invariant 0 <= i <= 16 && Remaining(rest, bits, i)
        invariant i > 13 ==> !bits[13]
        invariant View(sp) == Transferred(cpu, load, bits, base, i)
        invariant next == At(base, 4 * Count(bits, i))
        invariant hardware[7..] == old(hardware[7..]) && software[8..] == old(software[8..])
        decreases 16 - i
      {
        ShiftList(rest, bits, i);
        if rest & 1 == 1 {
          if GetRegisterPtr(i).Nowhere? {
            return false, next;
          }
          next := TransferOne(load, i, next, base, bits, cpu, sp);
        } else {
          TransferSkip(cpu, load, bits, base, i);
        }
        i, rest := i + 1, rest >> 1;
      }
      NoneLeft(bits, i);
      TransferRest(cpu, load, bits, base, i);
      ok := true;
    }

    /** usage_fault_default on the words of the two frames. Handled means the instruction's effect is in the frames and
        memory and nothing else has changed; otherwise the caller dumps the crash. */
    method HandleUsageFault(unaligned: bool, ghost sp: U32) returns (handled: bool)
      requires Valid()
      modifies hardware, software, mem
      ensures var c := Cpu(Layout(old(hardware[..]), old(software[..]), sp), old(mem[..])); var insn := Faulting(c);
        && (handled <==> unaligned && insn.Some? && insn.value.base != 13 && !insn.value.list[13])
        && (handled ==> Layout(hardware[..], software[..], sp) == Emulated(c, insn.value).regs)
        && (handled ==> mem[..] == Emulated(c, insn.value).mem)
        && (!handled ==> Cpu(Layout(hardware[..], software[..], sp), mem[..]) == GivenUp(c, unaligned))
      ensures hardware[7..] == old(hardware[7..]) && software[8..] == old(software[8..])
    {
      SavedIsLayout(hardware[..], software[..], sp);
      handled := HandleSaved(unaligned, sp);
      SavedIsLayout(hardware[..], software[..], sp);
    }

    /** The same on the registers that the frames stand for. */
    method HandleSaved(unaligned: bool, ghost sp: U32) returns (handled: bool)
      requires Valid()
      modifies hardware, software, mem
      ensures var c := old(View(sp)); var insn := Faulting(c);
        && (handled <==> unaligned && insn.Some? && insn.value.base != 13 && !insn.value.list[13])
        && (handled ==> View(sp) == Emulated(c, insn.value))
        && (!handled ==> View(sp) == GivenUp(c, unaligned))
      ensures hardware[7..] == old(hardware[7..]) && software[8..] == old(software[8..])
    {
      var pc := GetReg(15, sp);
      var hw1 := HalfWord(mem[..], pc);
      var hw2 := HalfWord(mem[..], At(pc, 2));
      var known, f := DecodeFault(hw1, hw2);
      if !unaligned || !known {
        return false;
      }
      SplitBounds(hw1, hw2);
      SixteenBitsFit(f.list);
      handled := Emulate(ToInsn(f), f.list, pc, sp);
    }

    /** The part after decoding. */
    method Emulate(insn: Insn, list: bv32, pc: U32, ghost sp: U32) returns (handled: bool)
      requires Valid() && insn.base < 16 && insn.list == Bits(list, 16) && Fits(list, 16)
      requires pc == View(sp).regs[15]
      modifies hardware, software, mem
      ensures handled <==> insn.base != 13 && !insn.list[13]
      ensures handled ==> View(sp) == Emulated(old(View(sp)), insn)
      ensures !handled ==> View(sp) == GivenUpAt(old(View(sp)), insn)
      ensures hardware[7..] == old(hardware[7..]) && software[8..] == old(software[8..])
    {
      if GetRegisterPtr(insn.base).Nowhere? {
        return false;
      }
      var start := GetReg(insn.base, sp);
      var next;
      handled, next := Transfer(insn.load, list, start, sp);
      if !handled {
        return;
      }
      if insn.writeback {
        SetReg(insn.base, next, sp);
      }
      SetReg(15, At(pc, insn.size), sp);
    }
  }

  lemma {:induction false} NoneLeft(bits: List, i: nat)
    requires i <= 16 && Bits(0, 16 - i) == bits[i..]
    ensures forall k :: i <= k < 16 ==> !bits[k]
  {
    forall k | i <= k < 16
      ensures !bits[k]
    {
      NoBits(16 - i, k - i);
      assert bits[k] == bits[i..][k - i];
    }
  }

  /** The bits of `rest` are those of the list from register i on. */
  predicate Remaining(rest: bv32, bits: List, i: nat) {
    i <= 16 && Fits(rest, 16 - i) && Bits(rest, 16 - i) == bits[i..]
  }

  lemma {:induction false} ShiftList(rest: bv32, bits: List, i: nat)
    requires Remaining(rest, bits, i) && rest != 0
    ensures i < 16 && bits[i] == (rest & 1 == 1) && Remaining(rest >> 1, bits, i + 1)
  {
    assert bits[i] == bits[i..][0];
    assert bits[i + 1..] == bits[i..][1..];
  }

  /** Takes the halfwords at the program counter apart, as the 16-bit or the 32-bit encoding. */
  method DecodeFault(hw1: bv32, hw2: bv32) returns (known: bool, f: Fields)
    ensures known <==> Split(hw1, hw2).Some?
    ensures known ==> f == Split(hw1, hw2).value
  {
    var wide := (hw1 << 16) | hw2;
    var thumb := hw1 & 0xF000 == 0xC000;
    known := wide & 0xFFC0_0000 == 0xE880_0000 || thumb;
    if thumb {
      f := Fields(hw1 & 0x0800 != 0, (hw1 >> 8) & 7, hw1 & 0xFF, true, 2);
    } else {
      f := Fields(wide & 0x0010_0000 != 0, (wide >> 16) & 0xF, wide & 0xFFFF, wide & 0x0020_0000 != 0, 4);
    }
  }
}
