/** machine/mipssim.cc: LWL, LWR, SWL and SWR, and the load delay slot (SIM_FIX, little-endian). Memory is what the
    program sees through address translation; bits are cut out and put together with arithmetic on natural numbers. */
module UnalignedAccess {
  import opened Words
  import opened Disks

  const NUM_GP_REGS := 32

  /** `loadReg` and `loadValue` are the load that takes effect after the next instruction; `readable` and `writable` are
      the aligned words that translation lets the program read and write. */
  datatype Cpu = Cpu(
    regs: seq<uint32>, loadReg: nat, loadValue: uint32, mem: seq<byte>, readable: set<int>, writable: set<int>)
  {
    ghost predicate Valid() {
      && |regs| == NUM_GP_REGS && regs[0] == 0 && loadReg < NUM_GP_REGS && |mem| < TWO_32 - 4
      && writable <= readable && forall w :: w in readable ==> 0 <= w && Accessible(mem, w)
    }
  }

  datatype Outcome = Done(cpu: Cpu) | Fault(cpu: Cpu)

  /** Applies the load in progress and starts another; an interrupt or exception calls it with register 0. */
  function DelayedLoad(s: Cpu, nextReg: nat, nextValue: uint32): (s': Cpu)
    requires s.Valid() && nextReg < NUM_GP_REGS
    ensures s'.Valid()
  {
    s.(regs := s.regs[s.loadReg := s.loadValue][0 := 0], loadReg := nextReg, loadValue := nextValue)
  }

  function Address(s: Cpu, rs: nat, extra: int): (a: uint32)
    requires s.Valid() && rs < NUM_GP_REGS
  {
    (s.regs[rs] + extra) % TWO_32
  }

  /** The aligned word around an address, and the position of the address in it. */
  function WordOf(a: nat): (word: nat)
    ensures word <= a < word + 4 && word % 4 == 0
  {
    a - a % 4
  }

  function Pos(a: nat): (pos: nat)
    ensures pos < 4 && WordOf(a) + pos == a
  {
    a % 4
  }

  /** An aligned word of memory. */
  predicate Accessible(mem: seq<byte>, word: nat) {
    word % 4 == 0 && word + 4 <= |mem|
  }

  function ReadWord(mem: seq<byte>, word: nat): (w: uint32)
    requires Accessible(mem, word)
  {
    BytesWord(mem[word], mem[word + 1], mem[word + 2], mem[word + 3])
  }

  function WriteWord(mem: seq<byte>, word: nat, w: uint32): (mem': seq<byte>)
    requires Accessible(mem, word)
    ensures |mem'| == |mem|
  {
    Overlay(mem, word, WordBytes(w))
  }

  // ---------------------------------------------------------------- what the instructions do to a word

  /** LWL: the bytes of the word up to position `pos` become the high bytes. */
  function LoadLeft(old_: uint32, value: uint32, pos: nat): (r: uint32)
    requires pos < 4
  {
    match 3 - pos
    case 0 => value
    case 1 => old_ % 0x100 + value % 0x100_0000 * 0x100
    case 2 => old_ % 0x1_0000 + value % 0x1_0000 * 0x1_0000
    case _ => old_ % 0x100_0000 + value % 0x100 * 0x100_0000
  }

  /** LWR: the bytes of the word from position `pos` on become the low bytes. */
  function LoadRight(old_: uint32, value: uint32, pos: nat): (r: uint32)
    requires pos < 4
  {
    match 3 - pos
    case 0 => old_ - old_ % 0x100 + value / 0x100_0000
    case 1 => old_ - old_ % 0x1_0000 + value / 0x1_0000
    case 2 => old_ - old_ % 0x100_0000 + value / 0x100
    case _ => value
  }

  /** SWL: the high bytes of the register go to the bytes of the word up to position `pos`. */
  function StoreLeft(value: uint32, reg: uint32, pos: nat): (r: uint32)
    requires pos < 4
  {
    match 3 - pos
    case 0 => reg
    case 1 => value - value % 0x100_0000 + reg / 0x100
    case 2 => value - value % 0x1_0000 + reg / 0x1_0000
    case _ => value - value % 0x100 + reg / 0x100_0000
  }

  /** SWR: the low bytes of the register go to the bytes of the word from position `pos` on. */
  function StoreRight(value: uint32, reg: uint32, pos: nat): (r: uint32)
    requires pos < 4
  {
    match 3 - pos
    case 0 => value % 0x100_0000 + reg % 0x100 * 0x100_0000
    case 1 => value % 0x1_0000 + reg % 0x1_0000 * 0x1_0000
    case 2 => value % 0x100 + reg % 0x100_0000 * 0x100
    case _ => reg
  }

  // ---------------------------------------------------------------- the instructions

  /** The value a partial load starts from: the one in progress, if it is for the same register. */
  function Merging(s: Cpu, rt: nat): (v: uint32)
    requires s.Valid() && rt < NUM_GP_REGS
  {
    if s.loadReg == rt then s.loadValue else s.regs[rt]
  }

  /** LWL or LWR at an effective address. */
  function LoadAt(s: Cpu, left: bool, rt: nat, a: nat): (o: Outcome)
    requires s.Valid() && rt < NUM_GP_REGS
    ensures o.cpu.Valid()
  {
    if WordOf(a) !in s.readable then Fault(DelayedLoad(s, 0, 0)) else
    var value, old_ := ReadWord(s.mem, WordOf(a)), Merging(s, rt);
    Done(DelayedLoad(s, rt, if left then LoadLeft(old_, value, Pos(a)) else LoadRight(old_, value, Pos(a))))
  }

  function Load(s: Cpu, left: bool, rt: nat, rs: nat, extra: int): (o: Outcome)
    requires s.Valid() && rt < NUM_GP_REGS && rs < NUM_GP_REGS
    ensures o.cpu.Valid()
  {
    LoadAt(s, left, rt, Address(s, rs, extra))
  }

  /** SWL or SWR at an effective address. */
  function StoreAt(s: Cpu, left: bool, rt: nat, a: nat): (o: Outcome)
    requires s.Valid() && rt < NUM_GP_REGS
    ensures o.cpu.Valid()
  {
    if WordOf(a) !in s.readable || WordOf(a) !in s.writable then Fault(DelayedLoad(s, 0, 0)) else
    var value, reg := ReadWord(s.mem, WordOf(a)), s.regs[rt];
    var v := if left then StoreLeft(value, reg, Pos(a)) else StoreRight(value, reg, Pos(a));
    Done(DelayedLoad(s.(mem := WriteWord(s.mem, WordOf(a), v)), 0, 0))
  }

  function Store(s: Cpu, left: bool, rt: nat, rs: nat, extra: int): (o: Outcome)
    requires s.Valid() && rt < NUM_GP_REGS && rs < NUM_GP_REGS
    ensures o.cpu.Valid()
  {
    StoreAt(s, left, rt, Address(s, rs, extra))
  }

  // ---------------------------------------------------------------- bytes

  lemma LoadLeftBytes(old_: uint32, v: uint32, pos: nat)
    requires pos < 4
    ensures var r, o, w := WordBytes(LoadLeft(old_, v, pos)), WordBytes(old_), WordBytes(v);
      forall i :: 0 <= i < 4 ==> r[i] == if i >= 3 - pos then w[i - (3 - pos)] else o[i]
  {
    SplitWord(old_);
    SplitWord(v);
    var o, w := WordBytes(old_), WordBytes(v);
    hide WordBytes;
    match 3 - pos
    case 0 =>
    case 1 =>
      assert LoadLeft(old_, v, pos) == BytesWord(o[0], w[0], w[1], w[2]);
      JoinBytes(o[0], w[0], w[1], w[2]);
    case 2 =>
      assert LoadLeft(old_, v, pos) == BytesWord(o[0], o[1], w[0], w[1]);
      JoinBytes(o[0], o[1], w[0], w[1]);
    case _ =>
      assert LoadLeft(old_, v, pos) == BytesWord(o[0], o[1], o[2], w[0]);
      JoinBytes(o[0], o[1], o[2], w[0]);
  }

  lemma LoadRightBytes(old_: uint32, v: uint32, pos: nat)
    requires pos < 4
    ensures var r, o, w := WordBytes(LoadRight(old_, v, pos)), WordBytes(old_), WordBytes(v);
      forall i :: 0 <= i < 4 ==> r[i] == if i <= 3 - pos then w[i + pos] else o[i]
  {
    SplitWord(old_);
    SplitWord(v);
    var o, w := WordBytes(old_), WordBytes(v);
    hide WordBytes;
    match 3 - pos
    case 0 =>
      assert LoadRight(old_, v, pos) == BytesWord(w[3], o[1], o[2], o[3]);
      JoinBytes(w[3], o[1], o[2], o[3]);
    case 1 =>
      assert LoadRight(old_, v, pos) == BytesWord(w[2], w[3], o[2], o[3]);
      JoinBytes(w[2], w[3], o[2], o[3]);
    case 2 =>
      assert LoadRight(old_, v, pos) == BytesWord(w[1], w[2], w[3], o[3]);
      JoinBytes(w[1], w[2], w[3], o[3]);
    case _ =>
  }

  /** Cutting a number made of four bytes. */
  lemma CutBytes(b0: byte, b1: byte, b2: byte, b3: byte)
    ensures var w := BytesWord(b0, b1, b2, b3);
      && w % 0x100 == b0 && w / 0x100 == b1 + 0x100 * b2 + 0x1_0000 * b3
      && w % 0x1_0000 == b0 + 0x100 * b1 && w / 0x1_0000 == b2 + 0x100 * b3
      && w % 0x100_0000 == b0 + 0x100 * b1 + 0x1_0000 * b2 && w / 0x100_0000 == b3
  {
    var w: int := BytesWord(b0, b1, b2, b3);
    DivUnique(w, 0x100, b1 + 0x100 * b2 + 0x1_0000 * b3, b0);
    DivUnique(w, 0x1_0000, b2 + 0x100 * b3, b0 + 0x100 * b1);
    DivUnique(w, 0x100_0000, b3, b0 + 0x100 * b1 + 0x1_0000 * b2);
  }

  lemma JoinBytes(b0: byte, b1: byte, b2: byte, b3: byte)
    ensures WordBytes(BytesWord(b0, b1, b2, b3)) == [b0, b1, b2, b3]
  {
    CutBytes(b0, b1, b2, b3);
    DivUnique(b1 + 0x100 * b2 + 0x1_0000 * b3, 0x100, b2 + 0x100 * b3, b1);
    DivUnique(b2 + 0x100 * b3, 0x100, b3, b2);
  }

  /** Every word is made of its bytes, and can be cut like them. */
  lemma SplitWord(w: uint32)
    ensures var b := WordBytes(w);
      var b0: int, b1: int, b2: int, b3: int := b[0], b[1], b[2], b[3];
      && w == b0 + 0x100 * b1 + 0x1_0000 * b2 + 0x100_0000 * b3
      && w % 0x100 == b0 && w % 0x1_0000 == b0 + 0x100 * b1 && w % 0x100_0000 == b0 + 0x100 * b1 + 0x1_0000 * b2
      && w / 0x100 == b1 + 0x100 * b2 + 0x1_0000 * b3 && w / 0x1_0000 == b2 + 0x100 * b3 && w / 0x100_0000 == b3
  {
    WordRoundTrip(w);
    var b := WordBytes(w);
    hide WordBytes;
    CutBytes(b[0], b[1], b[2], b[3]);
  }

  lemma ReadBytes(mem: seq<byte>, word: nat)
    requires Accessible(mem, word)
    ensures WordBytes(ReadWord(mem, word)) == mem[word..word + 4]
  {
    JoinBytes(mem[word], mem[word + 1], mem[word + 2], mem[word + 3]);
  }

  // ---------------------------------------------------------------- stores

  /** One store writes the bytes of the word from A on, or up to A, and nothing else. */
  lemma StoreRightWrites(mem: seq<byte>, a: nat, reg: uint32)
    requires Accessible(mem, WordOf(a))
    ensures var mem' := WriteWord(mem, WordOf(a), StoreRight(ReadWord(mem, WordOf(a)), reg, Pos(a)));
      forall i :: 0 <= i < |mem| ==>
        mem'[i] == if a <= i < WordOf(a) + 4 then WordBytes(reg)[i - a] else mem[i]
  {
    var value := ReadWord(mem, WordOf(a));
    ReadBytes(mem, WordOf(a));
    LoadLeftBytes(value, reg, 3 - Pos(a));
    hide WordBytes, StoreRight, LoadLeft, ReadWord, WordOf, Pos;
  }

  lemma StoreLeftWrites(mem: seq<byte>, a: nat, reg: uint32)
    requires Accessible(mem, WordOf(a))
    ensures var mem' := WriteWord(mem, WordOf(a), StoreLeft(ReadWord(mem, WordOf(a)), reg, Pos(a)));
      forall i :: 0 <= i < |mem| ==>
        mem'[i] == if WordOf(a) <= i <= a then WordBytes(reg)[3 - (a - i)] else mem[i]
  {
    var value := ReadWord(mem, WordOf(a));
    ReadBytes(mem, WordOf(a));
    LoadRightBytes(value, reg, 3 - Pos(a));
    hide WordBytes, StoreLeft, LoadRight, ReadWord, WordOf, Pos;
  }
}
