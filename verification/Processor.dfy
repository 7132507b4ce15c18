/** machine/mipssim.cc: the register file with its delayed load, and LWL, LWR, SWL and SWR as they change registers and,
    through the page table, memory in place. */
module Processors {
  import opened Words
  import opened UnalignedAccess
  import opened VirtualMemory
  import opened Machines
  import opened UnalignedPairs
  import U = UnalignedAccess
  import T = Translation

  class Processor {
    const registers: array<uint32>
    var loadReg: nat
    var loadValue: uint32
    const machine: Machine

    ghost function Table(): (t: seq<T.Entry>)
      reads this, machine, machine.pageTable
    {
      if machine.pageTable == null then [] else machine.pageTable[..]
    }

    /** The program runs with a page table in which no frame occurs twice. */
    ghost predicate Valid()
      reads this, machine, registers, machine.pageTable, machine.mainMemory
    {
      && machine.Valid() && machine.tlb == null
      && registers as object != machine.mainMemory && registers as object != machine.pageTable
      && machine.mainMemory as object != machine.pageTable
      && registers.Length == NUM_GP_REGS && registers[0] == 0 && loadReg < NUM_GP_REGS
      && T.Injective(Table()) && |Table()| * PAGE_SIZE < TWO_32 - 4
    }

    /** What the program sees. */
    ghost function View(): (s: Cpu)
      requires Valid()
      reads this, machine, registers, machine.pageTable, machine.mainMemory
      ensures s.Valid()
    {
      CpuOfValid(registers[..], loadReg, loadValue, Table(), machine.mainMemory[..]);
      CpuOf(registers[..], loadReg, loadValue, Table(), machine.mainMemory[..])
    }

    constructor (machine: Machine)
      requires machine.Valid() && machine.tlb == null
      requires T.Injective(machine.pageTable[..]) && machine.pageTable.Length * PAGE_SIZE < TWO_32 - 4
      requires machine.mainMemory as object != machine.pageTable
      ensures Valid() && fresh(registers) && this.machine == machine
    {
      this.machine := machine;
      registers := new uint32[NUM_GP_REGS](i => 0);
      loadReg, loadValue := 0, 0;
    }

    method DelayedLoad(nextReg: nat, nextValue: uint32)
      requires Valid() && nextReg < NUM_GP_REGS
      modifies this, registers
      ensures Valid() && View() == U.DelayedLoad(old(View()), nextReg, nextValue)
    {
      hide T.Injective, VirtualBytes, ReadableWords, WritableWords;
      registers[loadReg] := loadValue;
      loadReg := nextReg;
      loadValue := nextValue;
      registers[0] := 0;
    }

    /** ReadMem of an aligned word. */
    method ReadAligned(word: uint32) returns (done: bool, value: uint32)
      requires Valid() && word % 4 == 0
      modifies machine.pageTable
      ensures Valid() && View() == old(View())
      ensures done <==> word in View().readable
      ensures done ==> Accessible(View().mem, word) && value == ReadWord(View().mem, word)
    {
      hide T.Injective, VirtualBytes, ReadableWords, WritableWords, T.ReadMem, ReadWord, T.After, ToUnsigned, ToSigned;
      ghost var table := Table();
      ReadThrough(table, machine.mainMemory[..], word);
      var r := machine.ReadMem(word, 4);
      BitsOnly(table, word, false);
      SameView(table, Table(), machine.mainMemory[..]);
      done := r.Done?;
      value := 0;
      if done {
        PatternRoundTrip(ReadWord(View().mem, word));
        value := ToUnsigned(r.value);
      }
    }

    /** WriteMem of an aligned word. */
    method WriteAligned(word: uint32, value: uint32) returns (done: bool)
      requires Valid() && word % 4 == 0
      modifies machine.pageTable, machine.mainMemory
      ensures Valid() && done == (word in old(View()).writable)
      ensures done ==> Accessible(old(View()).mem, word)
      ensures done ==> View() == old(View()).(mem := U.WriteWord(old(View()).mem, word, value))
      ensures !done ==> View() == old(View())
    {
      hide T.Injective, VirtualBytes, ReadableWords, WritableWords, T.WriteMem, U.WriteWord, T.After, ToUnsigned,
        ToSigned;
      ghost var table := Table();
      WriteThrough(table, machine.mainMemory[..], word, value);
      var r := machine.WriteMem(word, 4, ToSigned(value));
      BitsOnly(table, word, true);
      SameView(table, Table(), machine.mainMemory[..]);
      done := r.Done?;
    }

    /** LWL if `left`, otherwise LWR; `done` is false if the word cannot be read. */
    method LoadPart(left: bool, rt: nat, rs: nat, extra: int) returns (done: bool)
      requires Valid() && rt < NUM_GP_REGS && rs < NUM_GP_REGS
      modifies this, registers, machine.pageTable
      ensures Valid() && View() == Load(old(View()), left, rt, rs, extra).cpu
      ensures done == Load(old(View()), left, rt, rs, extra).Done?
    {
      hide LoadLeft, LoadRight, ReadWord, VirtualBytes, ReadableWords, WritableWords, T.Injective, U.DelayedLoad;
      ghost var s := View();
      var tmp := (registers[rs] + extra) % TWO_32;
      var pos := tmp % 4;
      assert tmp == Address(s, rs, extra) && tmp - pos == WordOf(tmp) && pos == Pos(tmp);
      hide Address, WordOf, Pos;
      var value;
      done, value := ReadAligned(tmp - pos);
      if !done {
        DelayedLoad(0, 0);
        return;
      }
      var nextLoadValue := if loadReg == rt then loadValue else registers[rt];
      assert nextLoadValue == Merging(s, rt);
      hide Merging, CpuOf;
      nextLoadValue := if left then LoadLeft(nextLoadValue, value, pos) else LoadRight(nextLoadValue, value, pos);
      DelayedLoad(rt, nextLoadValue);
    }

    /** SWL if `left`, otherwise SWR; `done` is false if the word cannot be written. */
    method StorePart(left: bool, rt: nat, rs: nat, extra: int) returns (done: bool)
      requires Valid() && rt < NUM_GP_REGS && rs < NUM_GP_REGS
      modifies this, registers, machine.pageTable, machine.mainMemory
      ensures Valid() && View() == Store(old(View()), left, rt, rs, extra).cpu
      ensures done == Store(old(View()), left, rt, rs, extra).Done?
    {
      hide StoreLeft, StoreRight, ReadWord, VirtualBytes, ReadableWords, WritableWords, T.Injective, U.DelayedLoad,
        U.WriteWord;
      ghost var s := View();
      var tmp := (registers[rs] + extra) % TWO_32;
      var pos := tmp % 4;
      assert tmp == Address(s, rs, extra) && tmp - pos == WordOf(tmp) && pos == Pos(tmp);
      hide Address, WordOf, Pos;
      var value;
      done, value := ReadAligned(tmp - pos);
      if done {
        assert registers[rt] == s.regs[rt];
        hide CpuOf;
        value := if left then StoreLeft(value, registers[rt], pos) else StoreRight(value, registers[rt], pos);
        done := WriteAligned(tmp - pos, value);
      }
      DelayedLoad(0, 0);
    }
  }

  lemma BitsOnly(table: seq<T.Entry>, word: uint32, writing: bool)
    ensures T.SameButBits(table, T.After(T.PageTable(table), word, 4, writing).entries)
  {
    hide T.Translate;
  }

  /** The two instructions of an unaligned load, an interrupt perhaps between them, and the delay slot. */
  method LoadUnaligned(p: Processor, rt: nat, rs: nat, extra: int, interrupted: bool) returns (done: bool)
    requires p.Valid() && rt < NUM_GP_REGS && rs < NUM_GP_REGS
    modifies p, p.registers, p.machine.pageTable
    ensures p.Valid() && p.View() == LoadPair(old(p.View()), rt, rs, extra, interrupted).cpu
    ensures done == LoadPair(old(p.View()), rt, rs, extra, interrupted).Done?
  {
    hide Load, U.DelayedLoad, CpuOf, Processor.Valid, Processor.Table;
    done := p.LoadPart(false, rt, rs, extra);
    if !done {
      return;
    }
    if interrupted {
      p.DelayedLoad(0, 0);
    }
    done := p.LoadPart(true, rt, rs, extra + 3);
    if done {
      p.DelayedLoad(0, 0);
    }
  }

  /** The two instructions of an unaligned store, an interrupt perhaps between them. */
  method StoreUnaligned(p: Processor, rt: nat, rs: nat, extra: int, interrupted: bool) returns (done: bool)
    requires p.Valid() && rt < NUM_GP_REGS && rs < NUM_GP_REGS
    modifies p, p.registers, p.machine.pageTable, p.machine.mainMemory
    ensures p.Valid() && p.View() == StorePair(old(p.View()), rt, rs, extra, interrupted).cpu
    ensures done == StorePair(old(p.View()), rt, rs, extra, interrupted).Done?
  {
    hide Store, U.DelayedLoad, CpuOf, Processor.Valid, Processor.Table;
    done := p.StorePart(false, rt, rs, extra);
    if !done {
      return;
    }
    if interrupted {
      p.DelayedLoad(0, 0);
    }
    done := p.StorePart(true, rt, rs, extra + 3);
  }
}
