/** The memory that a program sees through its page table, as one flat sequence of bytes. */
module VirtualMemory {
  import opened Words
  import opened Disks
  import opened UnalignedAccess
  import T = Translation

  const PAGE_SIZE := T.PAGE_SIZE

  /** The page is valid and its frame exists. */
  predicate Mapped(table: seq<T.Entry>, page: nat) {
    page < |table| && table[page].valid && 0 <= table[page].physicalPage < T.NUM_PHYS_PAGES
  }

  /** The physical address of a byte of a mapped page. */
  function Physical(table: seq<T.Entry>, va: nat): (p: nat)
    requires Mapped(table, va / PAGE_SIZE)
    ensures p < T.MEMORY_SIZE
  {
    table[va / PAGE_SIZE].physicalPage * PAGE_SIZE + va % PAGE_SIZE
  }

  function ByteAt(table: seq<T.Entry>, phys: T.Memory, va: nat): (b: byte) {
    if Mapped(table, va / PAGE_SIZE) then phys[Physical(table, va)] else 0
  }

  function VirtualBytes(table: seq<T.Entry>, phys: T.Memory): (mem: seq<byte>)
    ensures |mem| == |table| * PAGE_SIZE
    ensures forall va :: 0 <= va < |mem| ==> mem[va] == ByteAt(table, phys, va)
  {
    seq(|table| * PAGE_SIZE, va requires 0 <= va < |table| * PAGE_SIZE => ByteAt(table, phys, va))
  }

  /** The aligned words that can be read, and those that can be written. */
  function ReadableWords(table: seq<T.Entry>): (ws: set<int>)
    ensures forall w :: w in ws <==> 0 <= w && w % 4 == 0 && Mapped(table, w / PAGE_SIZE)
  {
    var ws := set w: int | 0 <= w < |table| * PAGE_SIZE && w % 4 == 0 && Mapped(table, w / PAGE_SIZE);
    ws
  }

  function WritableWords(table: seq<T.Entry>): (ws: set<int>)
    ensures forall w :: w in ws <==>
      0 <= w && w % 4 == 0 && Mapped(table, w / PAGE_SIZE) && !table[w / PAGE_SIZE].readOnly
  {
    set w | w in ReadableWords(table) && !table[w / PAGE_SIZE].readOnly
  }

  lemma WordInMemory(table: seq<T.Entry>, w: nat)
    requires w % 4 == 0 && Mapped(table, w / PAGE_SIZE)
    ensures w + 4 <= |table| * PAGE_SIZE
  {
    ByteInPage(w, 3);
  }

  /** An aligned word lies within one page. */
  lemma ByteInPage(w: nat, i: nat)
    requires w % 4 == 0 && i < 4
    ensures (w + i) / PAGE_SIZE == w / PAGE_SIZE && (w + i) % PAGE_SIZE == w % PAGE_SIZE + i
  {
    var q, o := w / PAGE_SIZE, w % PAGE_SIZE;
    assert o == 4 * (w / 4 - 32 * q);
    DivUnique(w + i, PAGE_SIZE, q, o + i);
  }

  /** Reading a word through the page table reads it from the flat memory, and fails exactly outside the readable
      words. */
  lemma ReadThrough(table: seq<T.Entry>, phys: T.Memory, w: uint32)
    requires w % 4 == 0
    ensures w !in ReadableWords(table) ==> T.ReadMem(T.PageTable(table), phys, w, 4).Fault?
    ensures w in ReadableWords(table) ==>
      && Accessible(VirtualBytes(table, phys), w)
      && T.ReadMem(T.PageTable(table), phys, w, 4) == T.Done(ToSigned(ReadWord(VirtualBytes(table, phys), w)))
  {
    hide ToSigned, BytesWord;
    if w in ReadableWords(table) {
      WordInMemory(table, w);
      var p, mem := Physical(table, w), VirtualBytes(table, phys);
      assert T.Translate(T.PageTable(table), w, 4, false) == T.Ok(w / PAGE_SIZE, p);
      T.InsideOnePage(T.PageTable(table), w, 4, false);
      ByteInPage(w, 1);
      ByteInPage(w, 2);
      ByteInPage(w, 3);
      assert mem[w] == phys[p] && mem[w + 1] == phys[p + 1] && mem[w + 2] == phys[p + 2] && mem[w + 3] == phys[p + 3];
      assert phys[p..p + 4] == [phys[p], phys[p + 1], phys[p + 2], phys[p + 3]];
    }
  }

  lemma BytesOfWord(v: uint32)
    ensures T.BytesOf(ToSigned(v), 4) == WordBytes(v)
  {
    assert ToUnsigned(ToSigned(v)) == v;
    assert WordBytes(v)[..4] == WordBytes(v);
  }

  /** Physical addresses of different bytes are different. */
  lemma PhysicalInjective(table: seq<T.Entry>, va: nat, w: nat, i: nat)
    requires T.Injective(table) && w % 4 == 0 && i < 4 && Mapped(table, va / PAGE_SIZE) && Mapped(table, w / PAGE_SIZE)
    ensures Physical(table, va) == Physical(table, w) + i <==> va == w + i
  {
    ByteInPage(w, i);
    var j, k := va / PAGE_SIZE, w / PAGE_SIZE;
    if j != k {
      assert table[j].physicalPage != table[k].physicalPage;
    }
  }

  /** Writing a word through the page table writes it into the flat memory, and fails exactly outside the writable
      words. */
  lemma WriteThrough(table: seq<T.Entry>, phys: T.Memory, w: uint32, v: uint32)
    requires w % 4 == 0 && T.Injective(table)
    ensures w !in WritableWords(table) ==> T.WriteMem(T.PageTable(table), phys, w, 4, ToSigned(v)).Fault?
    ensures w in WritableWords(table) ==>
      && Accessible(VirtualBytes(table, phys), w)
      && T.WriteMem(T.PageTable(table), phys, w, 4, ToSigned(v)).Done?
      && VirtualBytes(table, T.WriteMem(T.PageTable(table), phys, w, 4, ToSigned(v)).value)
         == WriteWord(VirtualBytes(table, phys), w, v)
  {
    hide ToSigned, WordBytes, T.BytesOf;
    if w in WritableWords(table) {
      WordInMemory(table, w);
      var p := Physical(table, w);
      assert T.Translate(T.PageTable(table), w, 4, true) == T.Ok(w / PAGE_SIZE, p);
      T.InsideOnePage(T.PageTable(table), w, 4, true);
      BytesOfWord(v);
      var phys': T.Memory := Overlay(phys, p, WordBytes(v));
      assert T.WriteMem(T.PageTable(table), phys, w, 4, ToSigned(v)) == T.Done(phys');
      OverlayThrough(table, phys, phys', w, WordBytes(v));
    }
  }

  lemma OverlayThrough(table: seq<T.Entry>, phys: T.Memory, phys': T.Memory, w: nat, bytes: seq<byte>)
    requires w % 4 == 0 && T.Injective(table) && Mapped(table, w / PAGE_SIZE) && |bytes| == 4
    requires Physical(table, w) + 4 <= T.MEMORY_SIZE && phys' == Overlay(phys, Physical(table, w), bytes)
    ensures w + 4 <= |table| * PAGE_SIZE
    ensures VirtualBytes(table, phys') == Overlay(VirtualBytes(table, phys), w, bytes)
  {
    WordInMemory(table, w);
    var mem, mem' := VirtualBytes(table, phys), VirtualBytes(table, phys');
    forall va | 0 <= va < |mem|
      ensures mem'[va] == Overlay(mem, w, bytes)[va]
    {
      ByteThrough(table, phys, phys', w, bytes, va);
    }
  }

  lemma ByteThrough(table: seq<T.Entry>, phys: T.Memory, phys': T.Memory, w: nat, bytes: seq<byte>, va: nat)
    requires w % 4 == 0 && T.Injective(table) && Mapped(table, w / PAGE_SIZE) && |bytes| == 4
    requires Physical(table, w) + 4 <= T.MEMORY_SIZE && phys' == Overlay(phys, Physical(table, w), bytes)
    ensures ByteAt(table, phys', va) == if w <= va < w + 4 then bytes[va - w] else ByteAt(table, phys, va)
  {
    if w <= va < w + 4 {
      ByteInPage(w, va - w);
      PhysicalInjective(table, va, w, va - w);
    } else if Mapped(table, va / PAGE_SIZE) {
      PhysicalInjective(table, va, w, 0);
      PhysicalInjective(table, va, w, 1);
      PhysicalInjective(table, va, w, 2);
      PhysicalInjective(table, va, w, 3);
    }
  }

  /** Use and dirty bits do not change what the program sees. */
  lemma SameView(table: seq<T.Entry>, table': seq<T.Entry>, phys: T.Memory)
    requires T.SameButBits(table, table')
    ensures VirtualBytes(table', phys) == VirtualBytes(table, phys)
    ensures ReadableWords(table') == ReadableWords(table) && WritableWords(table') == WritableWords(table)
    ensures T.Injective(table) ==> T.Injective(table')
  {
    forall page: nat
      ensures Mapped(table', page) == Mapped(table, page)
    {
    }
    assert forall va: nat :: ByteAt(table', phys, va) == ByteAt(table, phys, va);
  }

  /** The registers and the memory of a program that runs with a page table. */
  function CpuOf(regs: seq<uint32>, loadReg: nat, loadValue: uint32, table: seq<T.Entry>, phys: T.Memory): (s: Cpu) {
    Cpu(regs, loadReg, loadValue, VirtualBytes(table, phys), ReadableWords(table), WritableWords(table))
  }

  lemma CpuOfValid(regs: seq<uint32>, loadReg: nat, loadValue: uint32, table: seq<T.Entry>, phys: T.Memory)
    requires |regs| == NUM_GP_REGS && regs[0] == 0 && loadReg < NUM_GP_REGS && |table| * PAGE_SIZE < TWO_32 - 4
    ensures CpuOf(regs, loadReg, loadValue, table, phys).Valid()
  {
    forall w | w in ReadableWords(table)
      ensures 0 <= w && Accessible(VirtualBytes(table, phys), w)
    {
      WordInMemory(table, w);
    }
  }
}
