/** machine/translate.cc: virtual to physical addresses, through a page table or through a TLB, and access to memory;
    and the part of userprog/addrspace.cc that hands out page frames. */
module Translation {
  import opened Words
  import opened Disks
  import opened Bitmaps
  import opened FileHeaders

  const PAGE_SIZE := 128
  const NUM_PHYS_PAGES := 128
  const MEMORY_SIZE := 16384 // NUM_PHYS_PAGES * PAGE_SIZE
  const TLB_SIZE := 4

  datatype Entry = Entry(virtualPage: int, physicalPage: int, valid: bool, readOnly: bool, use: bool, dirty: bool)

  datatype ExceptionType = AddressError | PageFault | ReadOnly | BusError

  /** A machine has one of the two. */
  datatype Mapping = PageTable(entries: seq<Entry>) | Tlb(entries: seq<Entry>)

  datatype Translated = Ok(index: nat, physAddr: int) | Failed(exception: ExceptionType)

  type Size = n: int | n == 1 || n == 2 || n == 4 witness 1

  predicate Misaligned(virtAddr: uint32, size: Size) {
    (size == 4 && virtAddr % 4 != 0) || (size == 2 && virtAddr % 2 != 0)
  }

  function Vpn(virtAddr: uint32): (vpn: nat) {
    virtAddr / PAGE_SIZE
  }

  /** The first valid entry for a page, or the size of the TLB. */
  function Search(tlb: seq<Entry>, vpn: nat): (i: nat)
    ensures i <= |tlb| && (i < |tlb| ==> tlb[i].valid && tlb[i].virtualPage == vpn)
    ensures forall j :: 0 <= j < i ==> !(tlb[j].valid && tlb[j].virtualPage == vpn)
  {
    if tlb == [] || (tlb[0].valid && tlb[0].virtualPage == vpn) then 0 else 1 + Search(tlb[1..], vpn)
  }

  function Translate(m: Mapping, virtAddr: uint32, size: Size, writing: bool): (r: Translated) {
    if Misaligned(virtAddr, size) then Failed(AddressError)
    else if m.PageTable? && Vpn(virtAddr) >= |m.entries| then Failed(AddressError)
    else if m.PageTable? && !m.entries[Vpn(virtAddr)].valid then Failed(PageFault)
    else if m.Tlb? && Search(m.entries, Vpn(virtAddr)) == |m.entries| then Failed(PageFault)
    else Checked(m.entries, if m.PageTable? then Vpn(virtAddr) else Search(m.entries, Vpn(virtAddr)), virtAddr, writing)
  }

  /** The checks on the entry that was found; page numbers are compared as unsigned integers. */
  function Checked(entries: seq<Entry>, i: nat, virtAddr: uint32, writing: bool): (r: Translated)
    requires i < |entries|
  {
    if entries[i].readOnly && writing then Failed(ReadOnly)
    else if !(0 <= entries[i].physicalPage < NUM_PHYS_PAGES) then Failed(BusError)
    else Ok(i, entries[i].physicalPage * PAGE_SIZE + virtAddr % PAGE_SIZE)
  }

  /** A successful translation sets the use bit, and the dirty bit if it is for writing. */
  function Touched(e: Entry, writing: bool): (e': Entry) {
    e.(use := true, dirty := e.dirty || writing)
  }

  function After(m: Mapping, virtAddr: uint32, size: Size, writing: bool): (m': Mapping)
    ensures m'.PageTable? == m.PageTable? && |m'.entries| == |m.entries|
  {
    var r := Translate(m, virtAddr, size, writing);
    if r.Ok? && r.index < |m.entries| then
      var entries := m.entries[r.index := Touched(m.entries[r.index], writing)];
      if m.PageTable? then PageTable(entries) else Tlb(entries)
    else m
  }

  // ---------------------------------------------------------------- where translations lead

  /** A successful translation stays inside memory and inside one page, and keeps the offset; the ASSERT holds. */
  lemma InsideOnePage(m: Mapping, virtAddr: uint32, size: Size, writing: bool)
    requires Translate(m, virtAddr, size, writing).Ok?
    ensures var p := Translate(m, virtAddr, size, writing).physAddr;
      && 0 <= p && p + size <= MEMORY_SIZE
      && p / PAGE_SIZE == (p + size - 1) / PAGE_SIZE
      && p % PAGE_SIZE == virtAddr % PAGE_SIZE
      && (virtAddr + size - 1) / PAGE_SIZE == Vpn(virtAddr)
  {
    hide Search;
    OffsetFits(virtAddr, size);
  }

  lemma OffsetFits(virtAddr: uint32, size: Size)
    requires !Misaligned(virtAddr, size)
    ensures virtAddr % PAGE_SIZE + size <= PAGE_SIZE
  {
    var q, o := virtAddr / PAGE_SIZE, virtAddr % PAGE_SIZE;
    if size == 4 {
      var t := virtAddr / 4 - 32 * q;
      assert o == 4 * t;
    } else if size == 2 {
      var t := virtAddr / 2 - 64 * q;
      assert o == 2 * t;
    }
  }

  /** The valid entries of a TLB say what the page table says. */
  ghost predicate Agrees(tlb: seq<Entry>, table: seq<Entry>) {
    forall i :: 0 <= i < |tlb| && tlb[i].valid ==>
      && 0 <= tlb[i].virtualPage < |table|
      && var e := table[tlb[i].virtualPage];
         e.valid && e.physicalPage == tlb[i].physicalPage && e.readOnly == tlb[i].readOnly
  }

  /** Two translations have the same outcome for the program. */
  predicate SameOutcome(a: Translated, b: Translated) {
    match a
    case Ok(_, p) => b.Ok? && b.physAddr == p
    case Failed(e) => b == Failed(e)
  }

  /** A TLB that agrees with the page table either misses or gives the page table's result; and it misses exactly when
      it has no valid entry for the page. */
  lemma TlbAgrees(tlb: seq<Entry>, table: seq<Entry>, virtAddr: uint32, size: Size, writing: bool)
    requires Agrees(tlb, table)
    ensures var a := Translate(Tlb(tlb), virtAddr, size, writing);
      var b := Translate(PageTable(table), virtAddr, size, writing);
      && (a != Failed(PageFault) ==> SameOutcome(a, b))
      && (a == Failed(PageFault) <==>
            && !Misaligned(virtAddr, size)
            && forall i :: 0 <= i < |tlb| ==> !(tlb[i].valid && tlb[i].virtualPage == Vpn(virtAddr)))
  {
  }

  predicate Same(a: Entry, b: Entry) {
    a.virtualPage == b.virtualPage && a.physicalPage == b.physicalPage && a.valid == b.valid && a.readOnly == b.readOnly
  }

  /** Entries that differ at most in their use and dirty bits. */
  ghost predicate SameButBits(a: seq<Entry>, b: seq<Entry>) {
    |a| == |b| && forall i :: 0 <= i < |a| ==> Same(a[i], b[i])
  }

  lemma {:induction false} SameSearch(a: seq<Entry>, b: seq<Entry>, vpn: nat)
    requires SameButBits(a, b)
    ensures Search(a, vpn) == Search(b, vpn)
  {
    if a != [] {
      SameSearch(a[1..], b[1..], vpn);
    }
  }

  lemma SameTranslation(m: Mapping, m': Mapping, virtAddr: uint32, size: Size, writing: bool)
    requires m'.PageTable? == m.PageTable? && SameButBits(m.entries, m'.entries)
    ensures Translate(m', virtAddr, size, writing) == Translate(m, virtAddr, size, writing)
  {
    SameSearch(m.entries, m'.entries, Vpn(virtAddr));
    hide Search;
  }

  /** The use and dirty bits do not change what any later translation gives. */
  lemma BitsDoNotMatter(m: Mapping, va: uint32, size: Size, writing: bool, va': uint32, size': Size, writing': bool)
    ensures Translate(After(m, va, size, writing), va', size', writing') == Translate(m, va', size', writing')
  {
    assert SameButBits(m.entries, After(m, va, size, writing).entries) by { hide Translate; }
    SameTranslation(m, After(m, va, size, writing), va', size', writing');
  }

  // ---------------------------------------------------------------- memory

  type Memory = mem: seq<byte> | |mem| == 16384 witness seq(16384, i => 0)

  datatype Access<+T> = Done(value: T) | Fault(exception: ExceptionType)

  /** The low bytes of a value, least significant first. */
  function BytesOf(value: int32, size: Size): (bs: seq<byte>)
    ensures |bs| == size
  {
    WordBytes(ToUnsigned(value))[..size]
  }

  /** What a read of the bytes gives: one byte is sign-extended, two are not. */
  function ValueOf(bs: seq<byte>): (v: int32)
    requires |bs| == 1 || |bs| == 2 || |bs| == 4
  {
    if |bs| == 1 then (if bs[0] < 128 then bs[0] else bs[0] - 256)
    else if |bs| == 2 then bs[0] + 256 * bs[1]
    else ToSigned(BytesWord(bs[0], bs[1], bs[2], bs[3]))
  }

  function ReadMem(m: Mapping, mem: Memory, addr: uint32, size: Size): (r: Access<int32>) {
    var t := Translate(m, addr, size, false);
    if t.Failed? then Fault(t.exception) else
    InsideOnePage(m, addr, size, false);
    Done(ValueOf(mem[t.physAddr..t.physAddr + size]))
  }

  function WriteMem(m: Mapping, mem: Memory, addr: uint32, size: Size, value: int32): (r: Access<Memory>) {
    var t := Translate(m, addr, size, true);
    if t.Failed? then Fault(t.exception) else
    InsideOnePage(m, addr, size, true);
    Done(Overlay(mem, t.physAddr, BytesOf(value, size)))
  }

  /** A value of which only the low bytes count, as a read gives it back. */
  function Narrowed(value: int32, size: Size): (v: int32) {
    ValueOf(BytesOf(value, size))
  }

  lemma WordSurvives(value: int32)
    ensures Narrowed(value, 4) == value
  {
    WordRoundTrip(ToUnsigned(value));
    SignedRoundTrip(value);
    assert WordBytes(ToUnsigned(value))[..4] == WordBytes(ToUnsigned(value));
  }

  /** Reading back what was written through the same translation. */
  lemma WriteThenRead(m: Mapping, mem: Memory, addr: uint32, size: Size, value: int32)
    requires WriteMem(m, mem, addr, size, value).Done?
    ensures ReadMem(m, WriteMem(m, mem, addr, size, value).value, addr, size) == Done(Narrowed(value, size))
  {
    InsideOnePage(m, addr, size, true);
    ReadingIsAllowed(m, addr, size);
    hide Translate, ValueOf, BytesOf;
    var p := Translate(m, addr, size, true).physAddr;
    var mem' := Overlay(mem, p, BytesOf(value, size));
    assert mem'[p..p + size] == BytesOf(value, size);
  }

  lemma ReadingIsAllowed(m: Mapping, addr: uint32, size: Size)
    requires Translate(m, addr, size, true).Ok?
    ensures Translate(m, addr, size, false) == Translate(m, addr, size, true)
  {
    hide Search;
  }

  // ---------------------------------------------------------------- address spaces

  /** No frame belongs to both tables. */
  ghost predicate Disjoint(a: seq<Entry>, b: seq<Entry>) {
    forall i, j :: 0 <= i < |a| && 0 <= j < |b| ==> a[i].physicalPage != b[j].physicalPage
  }

  /** No frame occurs twice in a table. */
  ghost predicate Injective(a: seq<Entry>) {
    forall i, j :: 0 <= i < j < |a| ==> a[i].physicalPage != a[j].physicalPage
  }

  /** Bytes in different pages do not overlap. */
  lemma Apart(f: int, o: int, n: int, f': int, o': int, n': int)
    requires f != f' && 0 <= o && o + n <= PAGE_SIZE && 0 <= o' && o' + n' <= PAGE_SIZE
    ensures f * PAGE_SIZE + o + n <= f' * PAGE_SIZE + o' || f' * PAGE_SIZE + o' + n' <= f * PAGE_SIZE + o
  {
  }

  lemma ReadOutside(mem: seq<byte>, p: nat, bs: seq<byte>, p': nat, n: nat)
    requires p + |bs| <= |mem| && p' + n <= |mem| && (p + |bs| <= p' || p' + n <= p)
    ensures Overlay(mem, p, bs)[p'..p' + n] == mem[p'..p' + n]
  {
  }

  /** What is written through one address space is never seen through another. */
  lemma OtherSpaceUnaffected(a: seq<Entry>, b: seq<Entry>, mem: Memory, addr: uint32, size: Size, value: int32,
                             addr': uint32, size': Size)
    requires Disjoint(a, b) && WriteMem(PageTable(a), mem, addr, size, value).Done?
    ensures ReadMem(PageTable(b), WriteMem(PageTable(a), mem, addr, size, value).value, addr', size')
         == ReadMem(PageTable(b), mem, addr', size')
  {
    var w, r := Translate(PageTable(a), addr, size, true), Translate(PageTable(b), addr', size', false);
    if r.Ok? {
      InsideOnePage(PageTable(a), addr, size, true);
      InsideOnePage(PageTable(b), addr', size', false);
      Fits(PageTable(a), addr, size, true);
      Fits(PageTable(b), addr', size', false);
      hide Translate, ValueOf, BytesOf;
      Apart(a[Vpn(addr)].physicalPage, addr % PAGE_SIZE, size, b[Vpn(addr')].physicalPage, addr' % PAGE_SIZE, size');
      ReadOutside(mem, w.physAddr, BytesOf(value, size), r.physAddr, size');
    }
  }

  lemma Fits(m: Mapping, addr: uint32, size: Size, writing: bool)
    requires Translate(m, addr, size, writing).Ok?
    ensures addr % PAGE_SIZE + size <= PAGE_SIZE
  {
    OffsetFits(addr, size);
  }

  /** Within one address space a write changes only the addresses that were written. */
  lemma OtherAddressUnaffected(a: seq<Entry>, mem: Memory, addr: uint32, size: Size, value: int32,
                               addr': uint32, size': Size)
    requires Injective(a) && WriteMem(PageTable(a), mem, addr, size, value).Done?
    requires addr + size <= addr' || addr' + size' <= addr
    ensures ReadMem(PageTable(a), WriteMem(PageTable(a), mem, addr, size, value).value, addr', size')
         == ReadMem(PageTable(a), mem, addr', size')
  {
    var w, r := Translate(PageTable(a), addr, size, true), Translate(PageTable(a), addr', size', false);
    if r.Ok? {
      InsideOnePage(PageTable(a), addr, size, true);
      InsideOnePage(PageTable(a), addr', size', false);
      Fits(PageTable(a), addr, size, true);
      Fits(PageTable(a), addr', size', false);
      hide Translate, ValueOf, BytesOf;
      if Vpn(addr) != Vpn(addr') {
        Apart(a[Vpn(addr)].physicalPage, addr % PAGE_SIZE, size, a[Vpn(addr')].physicalPage, addr' % PAGE_SIZE, size');
      }
      ReadOutside(mem, w.physAddr, BytesOf(value, size), r.physAddr, size');
    }
  }

  // ---------------------------------------------------------------- handing out frames

  /** The page table that the loader makes of the frames it was given. */
  function TableOf(frames: seq<int>): (table: seq<Entry>)
    ensures |table| == |frames|
  {
    seq(|frames|, i requires 0 <= i < |frames| => Entry(i, frames[i], true, false, false, false))
  }

  /** The frame bitmap and the address spaces loaded so far. Frames are never returned. */
  datatype Spaces = Spaces(bits: seq<bool>, tables: seq<seq<Entry>>)

  /** One more address space has been loaded, with these frames. */
  ghost predicate Loaded(s: Spaces, s': Spaces, frames: seq<int>) {
    FirstFit(s.bits, frames) && Updated(s.bits, s'.bits, frames, true) && s'.tables == s.tables + [TableOf(frames)]
  }

  /** Before the first program is loaded: a bitmap of 256 clear bits. */
  ghost predicate NoSpaces(s: Spaces) {
    |s.bits| == 256 && (forall k :: 0 <= k < 256 ==> !s.bits[k]) && s.tables == []
  }

  ghost predicate LoadRun(states: seq<Spaces>, loads: seq<seq<int>>) {
    && |states| == |loads| + 1 && NoSpaces(states[0])
    && forall i :: 0 <= i < |loads| ==> Loaded(states[i], states[i + 1], loads[i])
  }

  ghost predicate Separate(s: Spaces) {
    && |s.bits| == 256
    && (forall k, i :: 0 <= k < |s.tables| && 0 <= i < |s.tables[k]| ==>
          0 <= s.tables[k][i].physicalPage < 256 && s.bits[s.tables[k][i].physicalPage])
    && (forall k :: 0 <= k < |s.tables| ==> Injective(s.tables[k]))
    && (forall k, l :: 0 <= k < |s.tables| && 0 <= l < |s.tables| && k != l ==> Disjoint(s.tables[k], s.tables[l]))
  }

  lemma LoadKeepsSeparate(s: Spaces, s': Spaces, frames: seq<int>)
    requires Separate(s) && Loaded(s, s', frames)
    ensures Separate(s')
  {
    var table, n := TableOf(frames), |s.tables|;
    forall i | 0 <= i < |frames|
      ensures 0 <= table[i].physicalPage < 256 && s'.bits[table[i].physicalPage] && !s.bits[table[i].physicalPage]
    {
      assert frames[i] in frames;
    }
    forall k | 0 <= k < n
      ensures Disjoint(s.tables[k], table) && Disjoint(table, s.tables[k])
    {
    }
  }

  lemma {:induction false} RunKeepsSeparate(states: seq<Spaces>, loads: seq<seq<int>>)
    requires LoadRun(states, loads)
    ensures Separate(states[|loads|])
  {
    if loads != [] {
      var n := |loads| - 1;
      assert LoadRun(states[..n + 1], loads[..n]);
      RunKeepsSeparate(states[..n + 1], loads[..n]);
      hide Separate;
      LoadKeepsSeparate(states[n], states[n + 1], loads[n]);
    }
  }

  /** After any run of loads, no two address spaces ever see each other's writes. */
  lemma SpacesAreIsolated(states: seq<Spaces>, loads: seq<seq<int>>, k: nat, l: nat, mem: Memory,
                          addr: uint32, size: Size, value: int32, addr': uint32, size': Size)
    requires LoadRun(states, loads)
    requires k < |states[|loads|].tables| && l < |states[|loads|].tables| && k != l
    requires WriteMem(PageTable(states[|loads|].tables[k]), mem, addr, size, value).Done?
    ensures var a, b := states[|loads|].tables[k], states[|loads|].tables[l];
      ReadMem(PageTable(b), WriteMem(PageTable(a), mem, addr, size, value).value, addr', size')
      == ReadMem(PageTable(b), mem, addr', size')
  {
    RunKeepsSeparate(states, loads);
    var s := states[|loads|];
    assert Disjoint(s.tables[k], s.tables[l]);
    hide LoadRun, Separate, WriteMem, ReadMem, Disjoint;
    OtherSpaceUnaffected(s.tables[k], s.tables[l], mem, addr, size, value, addr', size');
  }

  // ---------------------------------------------------------------- frames that exist

  /** Clear bits are no more than the positions that cover them. */
  lemma {:induction false} CountCovered(bits: seq<bool>, s: set<int>)
    requires forall k :: 0 <= k < |bits| && !bits[k] ==> k in s
    ensures CountClear(bits) <= |s|
  {
    if bits != [] {
      var n := |bits| - 1;
      if bits[n] {
        CountCovered(bits[..n], s);
      } else {
        CountCovered(bits[..n], s - {n});
      }
    }
  }

  lemma {:induction false} SetOfSeq(xs: seq<int>)
    ensures |set x | x in xs| <= |xs|
  {
    if xs != [] {
      var n := |xs| - 1;
      SetOfSeq(xs[..n]);
      assert (set x | x in xs) == (set x | x in xs[..n]) + {xs[n]};
    }
  }

  /** First-fit frames all lie below a bound exactly when there are as many clear bits below it. */
  lemma FramesBelowIff(bits: seq<bool>, after: seq<bool>, frames: seq<int>, bound: nat)
    requires bound <= |bits| && FirstFit(bits, frames) && Updated(bits, after, frames, true)
    ensures (forall i :: 0 <= i < |frames| ==> frames[i] < bound) <==> |frames| <= CountClear(bits[..bound])
  {
    if forall i :: 0 <= i < |frames| ==> frames[i] < bound {
      TakenCount(bits[..bound], after[..bound], frames);
    } else {
      var i :| 0 <= i < |frames| && frames[i] >= bound;
      SetOfSeq(frames[..i]);
      CountCovered(bits[..bound], set x | x in frames[..i]);
    }
  }

  function Total(loads: seq<seq<int>>): (n: nat) {
    if loads == [] then 0 else Total(loads[..|loads| - 1]) + |loads[|loads| - 1]|
  }

  lemma LoadTakes(s: Spaces, s': Spaces, frames: seq<int>)
    requires Loaded(s, s', frames) && |s.bits| == 256 && |frames| <= CountClear(s.bits[..NUM_PHYS_PAGES])
    ensures |s'.bits| == 256 && forall i :: 0 <= i < |frames| ==> 0 <= frames[i] < NUM_PHYS_PAGES
    ensures CountClear(s'.bits[..NUM_PHYS_PAGES]) == CountClear(s.bits[..NUM_PHYS_PAGES]) - |frames|
  {
    hide CountClear;
    FramesBelowIff(s.bits, s'.bits, frames, NUM_PHYS_PAGES);
    TakenCount(s.bits[..NUM_PHYS_PAGES], s'.bits[..NUM_PHYS_PAGES], frames);
  }

  /** While no more frames have been handed out than there are, all of them exist. */
  lemma {:induction false} FramesExist(states: seq<Spaces>, loads: seq<seq<int>>)
    requires LoadRun(states, loads) && Total(loads) <= NUM_PHYS_PAGES
    ensures |states[|loads|].bits| == 256
    ensures CountClear(states[|loads|].bits[..NUM_PHYS_PAGES]) == NUM_PHYS_PAGES - Total(loads)
    ensures forall k, i :: 0 <= k < |loads| && 0 <= i < |loads[k]| ==> 0 <= loads[k][i] < NUM_PHYS_PAGES
  {
    if loads == [] {
      AllClear(states[0].bits[..NUM_PHYS_PAGES]);
    } else {
      hide CountClear, NoSpaces, Loaded;
      var n := |loads| - 1;
      assert LoadRun(states[..n + 1], loads[..n]);
      FramesExist(states[..n + 1], loads[..n]);
      LoadTakes(states[n], states[n + 1], loads[n]);
      forall k, i | 0 <= k < |loads| && 0 <= i < |loads[k]|
        ensures 0 <= loads[k][i] < NUM_PHYS_PAGES
      {
        if k < n {
          assert loads[..n][k] == loads[k];
        }
      }
    }
  }

  /** The loader's own test compares with a bitmap of 256 bits, so it lets a program of 129 pages through, whose last
      frame lies outside memory: here is such a load, the first one after the machine has started. */
  lemma LoaderMayOverrun() returns (s: Spaces, s': Spaces, frames: seq<int>)
    ensures NoSpaces(s) && Loaded(s, s', frames) && |frames| == 129
    ensures |frames| <= CountClear(s.bits) && frames[128] >= NUM_PHYS_PAGES
  {
    frames := seq(129, i => i);
    s := Spaces(seq(256, i => false), []);
    s' := Spaces(seq(256, i => i < 129), [TableOf(frames)]);
    AllClear(s.bits);
    forall k | 0 <= k < 256
      ensures k in frames <==> k < 129
    {
      if k < 129 {
        assert frames[k] == k;
      }
    }
    forall i, k | 0 <= i < |frames| && 0 <= k < frames[i]
      ensures k in frames[..i]
    {
      assert frames[..i][k] == k;
    }
  }
}
