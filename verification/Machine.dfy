/** The machine's memory unit (machine/translate.cc) and the loader's use of page frames (userprog/addrspace.cc). */
module Machines {
  import opened Words
  import opened Disks
  import opened Bitmaps
  import opened FileHeaders
  import opened Translation
  import T = Translation

  class Machine {
    const tlb: array?<Entry>
    var pageTable: array?<Entry>
    const mainMemory: array<byte>

    /** Either a TLB or a page table, not both. */
    predicate Valid()
      reads this
    {
      && (tlb == null || pageTable == null) && (tlb != null || pageTable != null)
      && (tlb != null ==> tlb.Length == TLB_SIZE) && mainMemory.Length == MEMORY_SIZE
    }

    ghost function Table(): (t: set<object>)
      reads this
      requires Valid()
    {
      if tlb != null then {tlb} else {pageTable}
    }

    ghost function View(): (m: Mapping)
      requires Valid()
      reads this, Table()
    {
      if tlb != null then Tlb(tlb[..]) else PageTable(pageTable[..])
    }

    constructor (useTlb: bool)
      ensures Valid() && fresh(mainMemory) && (tlb != null <==> useTlb)
    {
      mainMemory := new byte[MEMORY_SIZE](i => 0);
      if useTlb {
        tlb := new Entry[TLB_SIZE](i => Entry(0, 0, false, false, false, false));
        pageTable := null;
      } else {
        tlb := null;
        pageTable := new Entry[0];
      }
    }

    /** Finds the entry for an aligned address. */
    method FindEntry(virtAddr: uint32) returns (table: array<Entry>, i: nat, failure: ExceptionType)
      requires Valid()
      ensures table == (if tlb != null then tlb else pageTable) && View().entries == table[..]
      ensures i <= table.Length
      ensures tlb != null ==> i == Search(tlb[..], Vpn(virtAddr)) && (i == table.Length ==> failure == PageFault)
      ensures tlb == null ==> if Vpn(virtAddr) >= table.Length then i == table.Length && failure == AddressError
        else if !table[Vpn(virtAddr)].valid then i == table.Length && failure == PageFault else i == Vpn(virtAddr)
    {
      failure := PageFault;
      var vpn := virtAddr / PAGE_SIZE;
      if tlb == null {
        table := pageTable;
        if vpn >= table.Length {
          i, failure := table.Length, AddressError;
        } else if !table[vpn].valid {
          i := table.Length;
        } else {
          i := vpn;
        }
      } else {
        table := tlb;
        i := 0;
        while i < TLB_SIZE && !(table[i].valid && table[i].virtualPage == vpn)
          invariant i <= TLB_SIZE
          invariant forall j :: 0 <= j < i ==> !(table[j].valid && table[j].virtualPage == vpn)
        {
          i := i + 1;
        }
      }
    }

    method Translate(virtAddr: uint32, size: Size, writing: bool) returns (r: Translated)
      requires Valid()
      modifies Table()
      ensures Valid() && r == T.Translate(old(View()), virtAddr, size, writing)
      ensures View() == After(old(View()), virtAddr, size, writing)
    {
      if (size == 4 && virtAddr % 4 != 0) || (size == 2 && virtAddr % 2 != 0) {
        return Failed(AddressError);
      }
      var table, i, failure := FindEntry(virtAddr);
      if i == table.Length {
        return Failed(failure);
      }
      var entry := table[i];
      if entry.readOnly && writing {
        return Failed(ReadOnly);
      }
      if !(0 <= entry.physicalPage < NUM_PHYS_PAGES) {
        return Failed(BusError);
      }
      ghost var was := table[..];
      table[i] := Touched(entry, writing);
      assert table[..] == was[i := Touched(entry, writing)];
      return Ok(i, entry.physicalPage * PAGE_SIZE + virtAddr % PAGE_SIZE);
    }

    method ReadMem(addr: uint32, size: Size) returns (r: Access<int32>)
      requires Valid()
      modifies Table()
      ensures Valid() && mainMemory[..] == old(mainMemory[..])
      ensures r == T.ReadMem(old(View()), old(mainMemory[..]), addr, size)
      ensures View() == After(old(View()), addr, size, false)
    {
      var t := Translate(addr, size, false);
      if t.Failed? {
        return Fault(t.exception);
      }
      InsideOnePage(old(View()), addr, size, false);
      r := Done(ValueOf(mainMemory[t.physAddr..t.physAddr + size]));
    }

    method WriteMem(addr: uint32, size: Size, value: int32) returns (r: Access<()>)
      requires Valid()
      modifies Table(), mainMemory
      ensures Valid() && |mainMemory[..]| == MEMORY_SIZE
      ensures var w := T.WriteMem(old(View()), old(mainMemory[..]), addr, size, value);
        match w
        case Done(mem) => r == Done(()) && mainMemory[..] == mem
        case Fault(e) => r == Fault(e) && mainMemory[..] == old(mainMemory[..])
      ensures View() == After(old(View()), addr, size, true)
    {
      var t := Translate(addr, size, true);
      if t.Failed? {
        return Fault(t.exception);
      }
      InsideOnePage(old(View()), addr, size, true);
      BCopy(BytesOf(value, size), mainMemory, t.physAddr);
      r := Done(());
    }
  }

  /** Memory with some of its pages filled with zeros. */
  ghost predicate Cleared(before: seq<byte>, after: seq<byte>, frames: seq<int>) {
    && |after| == |before|
    && forall j :: 0 <= j < |before| ==> after[j] == if j / PAGE_SIZE in frames then 0 else before[j]
  }

  /** The loader takes a frame for every page and clears it, or reports that there are too few. */
  method LoadFrames(frameMap: Bitmap, mainMemory: array<byte>, numPages: nat) returns (ok: bool, pageTable: seq<Entry>)
    requires frameMap.Valid() && frameMap.numBits == 256 && mainMemory.Length == MEMORY_SIZE
    requires numPages <= CountClear(frameMap.Bits()) ==> numPages <= CountClear(frameMap.Bits()[..NUM_PHYS_PAGES])
    modifies frameMap.words, mainMemory
    ensures ok <==> numPages <= CountClear(old(frameMap.Bits()))
    ensures !ok ==> frameMap.Bits() == old(frameMap.Bits()) && mainMemory[..] == old(mainMemory[..])
    ensures ok ==> exists frames ::
      && |frames| == numPages && pageTable == TableOf(frames)
      && FirstFit(old(frameMap.Bits()), frames) && Updated(old(frameMap.Bits()), frameMap.Bits(), frames, true)
      && Cleared(old(mainMemory[..]), mainMemory[..], frames)
    ensures ok ==> forall i :: 0 <= i < numPages ==> 0 <= pageTable[i].physicalPage < NUM_PHYS_PAGES
  {
    hide BitsOf, CountClear;
    pageTable := [];
    var numClear := frameMap.NumClear();
    if numPages > numClear {
      return false, [];
    }
    ghost var was := frameMap.Bits();
    ghost var frames: seq<int> := [];
    FirstFitNone(was);
    for i := 0 to numPages
      invariant |frames| == i && pageTable == TableOf(frames)
      invariant FirstFit(was, frames) && Updated(was, frameMap.Bits(), frames, true)
      invariant CountClear(frameMap.Bits()) >= numPages - i
      invariant forall j :: 0 <= j < i ==> frames[j] < NUM_PHYS_PAGES
      invariant Cleared(old(mainMemory[..]), mainMemory[..], frames)
    {
      ghost var bits := frameMap.Bits();
      CountClearPositive(bits);
      var k := frameMap.FindAndSet();
      CountClearUpdate(bits, k, true);
      FirstFitStep(was, bits, frames, k);
      pageTable := pageTable + [Entry(i, k, true, false, false, false)];
      FramesBelowIff(was, frameMap.Bits(), frames + [k], NUM_PHYS_PAGES);
      assert (frames + [k])[i] == k;
      ghost var mem := mainMemory[..];
      ClearPage(mainMemory, k);
      frames := frames + [k];
    }
    ok := true;
  }

  method ClearPage(mainMemory: array<byte>, frame: nat)
    requires mainMemory.Length == MEMORY_SIZE && frame < NUM_PHYS_PAGES
    modifies mainMemory
    ensures Cleared(old(mainMemory[..]), mainMemory[..], [frame])
  {
    for i := 0 to PAGE_SIZE
      invariant forall j :: 0 <= j < MEMORY_SIZE ==>
        mainMemory[j] == if frame * PAGE_SIZE <= j < frame * PAGE_SIZE + i then 0 else old(mainMemory[j])
    {
      mainMemory[frame * PAGE_SIZE + i] := 0;
    }
  }
}
