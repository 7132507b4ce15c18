/** The pairs LWR A, LWL A+3 and SWR A, SWL A+3, with which a program reads and writes a word at any address. */
module UnalignedPairs {
  import opened Words
  import opened Disks
  import opened UnalignedAccess

  /** What an interrupt between the two instructions does. */
  function Between(s: Cpu, interrupted: bool): (s': Cpu)
    requires s.Valid()
    ensures s'.Valid()
  {
    if interrupted then DelayedLoad(s, 0, 0) else s
  }

  /** LWR A, LWL A+3; the result is complete after the delay slot. */
  function LoadPair(s: Cpu, rt: nat, rs: nat, extra: int, interrupted: bool): (o: Outcome)
    requires s.Valid() && rt < NUM_GP_REGS && rs < NUM_GP_REGS
    ensures o.cpu.Valid()
  {
    var o1 := Load(s, false, rt, rs, extra);
    if o1.Fault? then o1 else
    var o2 := Load(Between(o1.cpu, interrupted), true, rt, rs, extra + 3);
    if o2.Fault? then o2 else Done(DelayedLoad(o2.cpu, 0, 0))
  }

  /** SWR A, SWL A+3. */
  function StorePair(s: Cpu, rt: nat, rs: nat, extra: int, interrupted: bool): (o: Outcome)
    requires s.Valid() && rt < NUM_GP_REGS && rs < NUM_GP_REGS
    ensures o.cpu.Valid()
  {
    var o1 := Store(s, false, rt, rs, extra);
    if o1.Fault? then o1 else Store(Between(o1.cpu, interrupted), true, rt, rs, extra + 3)
  }

  /** A register once the load in progress has taken effect. */
  function After(s: Cpu, r: nat): (v: uint32)
    requires s.Valid() && r < NUM_GP_REGS
  {
    DelayedLoad(s, 0, 0).regs[r]
  }

  /** The effective address of the second instruction. */
  function Second(s: Cpu, rs: nat, extra: int): (b: uint32)
    requires s.Valid() && rs < NUM_GP_REGS
  {
    (After(s, rs) + extra + 3) % TWO_32
  }

  /** The register is not about to change. */
  predicate Steady(s: Cpu, r: nat)
    requires s.Valid() && r < NUM_GP_REGS
  {
    After(s, r) == s.regs[r]
  }

  lemma SameRemainder(x: uint32, y: uint32, n: int)
    ensures (x + n) % TWO_32 == (y + n) % TWO_32 <==> x == y
  {
    var p, q := (x + n) / TWO_32, (y + n) / TWO_32;
    assert x + n == p * TWO_32 + (x + n) % TWO_32;
    assert y + n == q * TWO_32 + (y + n) % TWO_32;
  }

  lemma PlusThree(x: int)
    ensures (x + 3) % TWO_32 == (x % TWO_32 + 3) % TWO_32
  {
  }

  /** The second address is the first plus three exactly when the base is not about to change. */
  lemma SecondIs(s: Cpu, rs: nat, extra: int)
    requires s.Valid() && rs < NUM_GP_REGS
    ensures Second(s, rs, extra) == (Address(s, rs, extra) + 3) % TWO_32 <==> Steady(s, rs)
  {
    PlusThree(s.regs[rs] + extra);
    SameRemainder(After(s, rs), s.regs[rs], extra + 3);
  }

  /** The aligned words that hold the bytes A to A+3. */
  lemma TwoWords(mem: seq<byte>, a: uint32)
    requires |mem| < TWO_32 - 4 && Accessible(mem, WordOf(a))
    ensures (a + 3) % TWO_32 == a + 3
    ensures Pos(a) == 0 ==> Pos(a + 3) == 3 && WordOf(a + 3) == a
    ensures Pos(a) != 0 ==> Pos(a + 3) == Pos(a) - 1 && WordOf(a + 3) == WordOf(a) + 4
  {
  }

  // ---------------------------------------------------------------- loading

  /** What LWR at `a` and LWL at `b` leave in a register that held `v`. */
  function Merged(mem: seq<byte>, a: nat, b: nat, v: uint32): (r: uint32)
    requires Accessible(mem, WordOf(a)) && Accessible(mem, WordOf(b))
  {
    LoadLeft(LoadRight(v, ReadWord(mem, WordOf(a)), Pos(a)), ReadWord(mem, WordOf(b)), Pos(b))
  }

  lemma FirstLoad(s: Cpu, rt: nat, rs: nat, a: nat, interrupted: bool)
    requires s.Valid() && 0 < rt < NUM_GP_REGS && rs < NUM_GP_REGS && rt != rs && WordOf(a) in s.readable
    ensures var o := LoadAt(s, false, rt, a);
      var m := Between(o.cpu, interrupted);
      && o.Done? && m.regs[rs] == After(s, rs) && m.mem == s.mem && m.readable == s.readable && m.writable == s.writable
      && Merging(m, rt) == LoadRight(Merging(s, rt), ReadWord(s.mem, WordOf(a)), Pos(a))
      && DelayedLoad(m, 0, 0).regs[rt := 0] == DelayedLoad(s, 0, 0).regs[rt := 0]
  {
    hide LoadRight, ReadWord, WordOf, Pos;
  }

  lemma SecondLoad(m: Cpu, rt: nat, b: nat)
    requires m.Valid() && 0 < rt < NUM_GP_REGS
    ensures var o := LoadAt(m, true, rt, b);
      && (o.Done? <==> WordOf(b) in m.readable)
      && (o.Done? ==> DelayedLoad(o.cpu, 0, 0) == DelayedLoad(m, 0, 0).(
            regs := DelayedLoad(m, 0, 0).regs[rt := LoadLeft(Merging(m, rt), ReadWord(m.mem, WordOf(b)), Pos(b))]))
  {
    hide LoadLeft, ReadWord, WordOf, Pos;
  }

  lemma SameButOne(x: seq<uint32>, y: seq<uint32>, k: nat, v: uint32)
    requires |x| == |y| && k < |x| && x[k := 0] == y[k := 0]
    ensures x[k := v] == y[k := v]
  {
    assert x[k := v] == x[k := 0][k := v];
    assert y[k := v] == y[k := 0][k := v];
  }

  /** In every state, for every register rt that is neither 0 nor the base: the pair merges the words around its two
      effective addresses into rt, with or without an interrupt between the instructions, lets the load that was in
      progress take effect, and changes nothing else; it faults exactly when one of the words cannot be read. */
  lemma LoadPairDoes(s: Cpu, rt: nat, rs: nat, extra: int, interrupted: bool)
    requires s.Valid() && 0 < rt < NUM_GP_REGS && rs < NUM_GP_REGS && rt != rs
    ensures var a, b := Address(s, rs, extra), Second(s, rs, extra);
      var o := LoadPair(s, rt, rs, extra, interrupted);
      && (o.Done? <==> WordOf(a) in s.readable && WordOf(b) in s.readable)
      && (o.Done? ==> o.cpu == DelayedLoad(s, 0, 0).(
            regs := DelayedLoad(s, 0, 0).regs[rt := Merged(s.mem, a, b, Merging(s, rt))]))
  {
    hide LoadAt, DelayedLoad, Merging, LoadLeft, LoadRight, ReadWord, WordOf, Pos, Accessible, Between;
    var a, b := Address(s, rs, extra), Second(s, rs, extra);
    if WordOf(a) in s.readable {
      FirstLoad(s, rt, rs, a, interrupted);
      var m := Between(LoadAt(s, false, rt, a).cpu, interrupted);
      assert Address(m, rs, extra + 3) == b;
      SecondLoad(m, rt, b);
      if WordOf(b) in s.readable {
        DelayedRest(s, m);
        SameButOne(DelayedLoad(m, 0, 0).regs, DelayedLoad(s, 0, 0).regs, rt, Merged(s.mem, a, b, Merging(s, rt)));
      }
    } else {
      assert LoadAt(s, false, rt, a).Fault? by { NoFirstLoad(s, rt, a); }
    }
  }

  lemma NoFirstLoad(s: Cpu, rt: nat, a: nat)
    requires s.Valid() && rt < NUM_GP_REGS && WordOf(a) !in s.readable
    ensures LoadAt(s, false, rt, a).Fault?
  {
  }

  lemma DelayedRest(s: Cpu, m: Cpu)
    requires s.Valid() && m.Valid() && m.mem == s.mem && m.readable == s.readable && m.writable == s.writable
    ensures DelayedLoad(m, 0, 0) == DelayedLoad(s, 0, 0).(regs := DelayedLoad(m, 0, 0).regs)
    ensures |DelayedLoad(m, 0, 0).regs| == |DelayedLoad(s, 0, 0).regs| == NUM_GP_REGS
  {
  }

  /** Merging the two loads gives the four bytes at A, whatever the register held before. */
  lemma MergedBytes(mem: seq<byte>, a: uint32, v: uint32)
    requires |mem| < TWO_32 - 4 && Accessible(mem, WordOf(a)) && Accessible(mem, WordOf(a + 3))
    ensures a + 4 <= |mem| && WordBytes(Merged(mem, a, a + 3, v)) == mem[a..a + 4]
  {
    hide LoadLeft, LoadRight, WordBytes, ReadWord, WordOf, Pos;
    TwoWords(mem, a);
    var word, next, p := WordOf(a), WordOf(a + 3), Pos(a);
    var first, second := ReadWord(mem, word), ReadWord(mem, next);
    ReadBytes(mem, word);
    ReadBytes(mem, next);
    var right := LoadRight(v, first, p);
    LoadRightBytes(v, first, p);
    LoadLeftBytes(right, second, Pos(a + 3));
    assert Merged(mem, a, a + 3, v) == LoadLeft(right, second, Pos(a + 3));
    hide *;
    var r, w := WordBytes(Merged(mem, a, a + 3, v)), WordBytes(right);
    forall i | 0 <= i < 4
      ensures r[i] == mem[a + i]
    {
      if p == 0 {
        assert r[i] == mem[next..next + 4][i];
      } else if i <= 3 - p {
        assert r[i] == w[i] == mem[word..word + 4][i + p];
      } else {
        assert r[i] == mem[next..next + 4][i - (4 - p)];
      }
    }
  }

  /** For every address A, if no load into the base is in progress that would change it: the pair loads the four bytes
      at A, even if an interrupt completes the first load before the second instruction, and apart from rt and a load
      that was already in progress nothing changes. It faults exactly when one of the two words cannot be read. */
  lemma LoadPairLoads(s: Cpu, rt: nat, rs: nat, extra: int, interrupted: bool)
    requires s.Valid() && 0 < rt < NUM_GP_REGS && rs < NUM_GP_REGS && rt != rs && Steady(s, rs)
    ensures var a, o := Address(s, rs, extra), LoadPair(s, rt, rs, extra, interrupted);
      && (o.Done? <==> WordOf(a) in s.readable && WordOf(a + 3) in s.readable)
      && (o.Done? ==>
            && a + 4 <= |s.mem| && WordBytes(o.cpu.regs[rt]) == s.mem[a..a + 4]
            && o.cpu == DelayedLoad(s, 0, 0).(regs := DelayedLoad(s, 0, 0).regs[rt := o.cpu.regs[rt]]))
  {
    hide LoadPair, Address, Second, DelayedLoad, WordOf, Pos, Merging, Merged, WordBytes, Steady, Accessible;
    LoadPairDoes(s, rt, rs, extra, interrupted);
    SecondIs(s, rs, extra);
    var a: int := Address(s, rs, extra);
    if WordOf(a) in s.readable {
      TwoWords(s.mem, a);
      if WordOf(a + 3) in s.readable {
        MergedBytes(s.mem, a, Merging(s, rt));
      }
    }
  }

  // ---------------------------------------------------------------- when loading goes wrong

  function WithMem(s: Cpu, mem: seq<byte>): (s': Cpu) {
    s.(mem := mem)
  }

  /** The pair leaves the four bytes at its address in the register. */
  ghost predicate LoadsFour(s: Cpu, rt: nat, rs: nat, extra: int, interrupted: bool)
    requires s.Valid() && rt < NUM_GP_REGS && rs < NUM_GP_REGS
  {
    var a, o := Address(s, rs, extra), LoadPair(s, rt, rs, extra, interrupted);
    o.Done? && a + 4 <= |s.mem| && WordBytes(o.cpu.regs[rt]) == s.mem[a..a + 4]
  }

  /** The top byte of the register is always the byte at the second address. */
  lemma TopByte(mem: seq<byte>, a: nat, b: nat, v: uint32)
    requires Accessible(mem, WordOf(a)) && Accessible(mem, WordOf(b))
    ensures WordBytes(Merged(mem, a, b, v))[3] == mem[b]
  {
    var right := LoadRight(v, ReadWord(mem, WordOf(a)), Pos(a));
    LoadLeftBytes(right, ReadWord(mem, WordOf(b)), Pos(b));
    ReadBytes(mem, WordOf(b));
    hide LoadLeft, LoadRight, WordBytes, ReadWord, WordOf, Pos;
    assert mem[WordOf(b)..WordOf(b) + 4][Pos(b)] == mem[b];
  }

  /** A memory of the given size that holds a single one. */
  function OneAt(size: nat, b: nat): (mem: seq<byte>)
    ensures |mem| == size && forall i :: 0 <= i < size ==> mem[i] == if i == b then 1 else 0
  {
    seq(size, i => if i == b then 1 else 0)
  }

  lemma WrongTop(mem: seq<byte>, a: nat, b: nat, v: uint32)
    requires Accessible(mem, WordOf(a)) && Accessible(mem, WordOf(b)) && a + 4 <= |mem| && b < |mem| && b != a + 3
    requires mem[b] == 1 && mem[a + 3] == 0
    ensures WordBytes(Merged(mem, a, b, v)) != mem[a..a + 4]
  {
    hide *;
    TopByte(mem, a, b, v);
    assert mem[a..a + 4][3] == mem[a + 3];
  }

  lemma InMemory(mem: seq<byte>, b: nat)
    requires Accessible(mem, WordOf(b))
    ensures b < |mem|
  {
  }

  lemma LoadsWrong(s: Cpu, rt: nat, rs: nat, extra: int, interrupted: bool)
    requires s.Valid() && 0 < rt < NUM_GP_REGS && rs < NUM_GP_REGS && rt != rs
    requires var a: int, b := Address(s, rs, extra), Second(s, rs, extra);
      && b != a + 3 && (a + 4 <= |s.mem| ==> s.mem[a + 3] == 0) && (b < |s.mem| ==> s.mem[b] == 1)
    ensures !LoadsFour(s, rt, rs, extra, interrupted)
  {
    hide LoadPair, Address, Second, DelayedLoad, WordOf, Pos, Merging, Merged, WordBytes, Accessible, After;
    var a: int, b: int := Address(s, rs, extra), Second(s, rs, extra);
    LoadPairDoes(s, rt, rs, extra, interrupted);
    if WordOf(a) in s.readable && WordOf(b) in s.readable && a + 4 <= |s.mem| {
      InMemory(s.mem, b);
      WrongTop(s.mem, a, b, Merging(s, rt));
    }
  }

  lemma UnsteadyLoadsWrong(s: Cpu, rt: nat, rs: nat, extra: int, interrupted: bool)
    requires s.Valid() && 0 < rt < NUM_GP_REGS && rs < NUM_GP_REGS && rt != rs && !Steady(s, rs)
    requires WordOf(Address(s, rs, extra)) in s.readable
    ensures var mem := OneAt(|s.mem|, Second(s, rs, extra));
      WithMem(s, mem).Valid() && !LoadsFour(WithMem(s, mem), rt, rs, extra, interrupted)
  {
    var mem := OneAt(|s.mem|, Second(s, rs, extra));
    var s' := WithMem(s, mem);
    assert Address(s', rs, extra) == Address(s, rs, extra) && Second(s', rs, extra) == Second(s, rs, extra);
    assert s'.mem == mem;
    hide DelayedLoad, Address, Second, WordOf, WordBytes, Steady, Accessible, OneAt, After, WithMem, LoadsFour;
    SecondIs(s, rs, extra);
    TwoWords(s.mem, Address(s, rs, extra));
    LoadsWrong(s', rt, rs, extra, interrupted);
  }

  /** Whatever memory holds, the pair loads the four bytes at its address: exactly when no load that changes the base is
      in progress. */
  lemma LoadPairRightIff(s: Cpu, rt: nat, rs: nat, extra: int, interrupted: bool)
    requires s.Valid() && 0 < rt < NUM_GP_REGS && rs < NUM_GP_REGS && rt != rs
    requires WordOf(Address(s, rs, extra)) in s.readable && WordOf(Address(s, rs, extra) as int + 3) in s.readable
    ensures Steady(s, rs) <==>
      forall mem :: |mem| == |s.mem| ==>
        WithMem(s, mem).Valid() && LoadsFour(WithMem(s, mem), rt, rs, extra, interrupted)
  {
    if Steady(s, rs) {
      forall mem: seq<byte> | |mem| == |s.mem|
        ensures WithMem(s, mem).Valid() && LoadsFour(WithMem(s, mem), rt, rs, extra, interrupted)
      {
        var s' := WithMem(s, mem);
        assert Steady(s', rs) && Address(s', rs, extra) == Address(s, rs, extra);
        hide LoadPair, Address, DelayedLoad, WordOf, WordBytes, Steady;
        LoadPairLoads(s', rt, rs, extra, interrupted);
      }
    } else {
      hide Steady, LoadsFour;
      UnsteadyLoadsWrong(s, rt, rs, extra, interrupted);
    }
  }

  // ---------------------------------------------------------------- storing

  /** Memory after SWR of `v` at `a` and SWL of `w` at `b`. */
  function Stored(mem: seq<byte>, a: nat, v: uint32, b: nat, w: uint32): (mem': seq<byte>)
    requires Accessible(mem, WordOf(a)) && Accessible(mem, WordOf(b))
    ensures |mem'| == |mem|
  {
    var m := WriteWord(mem, WordOf(a), StoreRight(ReadWord(mem, WordOf(a)), v, Pos(a)));
    WriteWord(m, WordOf(b), StoreLeft(ReadWord(m, WordOf(b)), w, Pos(b)))
  }

  /** Byte by byte: the second instruction writes up to its address, the first from its address to the end of the
      word. */
  lemma StoredAt(mem: seq<byte>, a: nat, v: uint32, b: nat, w: uint32, i: nat)
    requires Accessible(mem, WordOf(a)) && Accessible(mem, WordOf(b)) && i < |mem|
    ensures Stored(mem, a, v, b, w)[i] ==
      if WordOf(b) <= i <= b then WordBytes(w)[3 - (b - i)]
      else if a <= i < WordOf(a) + 4 then WordBytes(v)[i - a] else mem[i]
  {
    StoreRightWrites(mem, a, v);
    var m := WriteWord(mem, WordOf(a), StoreRight(ReadWord(mem, WordOf(a)), v, Pos(a)));
    StoreLeftWrites(m, b, w);
    hide WordBytes, StoreLeft, StoreRight, ReadWord, WordOf, Pos, WriteWord;
  }

  lemma FirstStore(s: Cpu, rt: nat, a: nat, interrupted: bool)
    requires s.Valid() && rt < NUM_GP_REGS && WordOf(a) in s.writable
    ensures var o := StoreAt(s, false, rt, a);
      var m := Between(o.cpu, interrupted);
      && o.Done? && m.regs == DelayedLoad(s, 0, 0).regs && m.loadReg == 0 && m.loadValue == 0
      && m.readable == s.readable && m.writable == s.writable
      && m.mem == WriteWord(s.mem, WordOf(a), StoreRight(ReadWord(s.mem, WordOf(a)), s.regs[rt], Pos(a)))
  {
    hide StoreRight, ReadWord, WordOf, Pos, WriteWord;
    var m := Between(StoreAt(s, false, rt, a).cpu, interrupted);
    assert m.regs == DelayedLoad(s, 0, 0).regs[0 := 0] == DelayedLoad(s, 0, 0).regs;
  }

  lemma SecondStore(m: Cpu, rt: nat, b: nat)
    requires m.Valid() && rt < NUM_GP_REGS && m.loadReg == 0 && m.loadValue == 0
    ensures var o := StoreAt(m, true, rt, b);
      && (o.Done? <==> WordOf(b) in m.writable)
      && (o.Done? ==>
            o.cpu == m.(mem := WriteWord(m.mem, WordOf(b), StoreLeft(ReadWord(m.mem, WordOf(b)), m.regs[rt], Pos(b)))))
  {
    hide StoreLeft, ReadWord, WordOf, Pos, WriteWord;
    assert m.regs[0 := 0] == m.regs;
  }

  /** In every state: the pair stores the low bytes of rt from its first effective address to the end of the word, then
      the high bytes of what rt has become up to its second effective address, and lets the load that was in progress
      take effect; it faults exactly when one of the words cannot be written. */
  lemma StorePairDoes(s: Cpu, rt: nat, rs: nat, extra: int, interrupted: bool)
    requires s.Valid() && rt < NUM_GP_REGS && rs < NUM_GP_REGS
    ensures var a, b := Address(s, rs, extra), Second(s, rs, extra);
      var o := StorePair(s, rt, rs, extra, interrupted);
      && (o.Done? <==> WordOf(a) in s.writable && WordOf(b) in s.writable)
      && (o.Done? ==> o.cpu == DelayedLoad(s, 0, 0).(mem := Stored(s.mem, a, s.regs[rt], b, After(s, rt))))
  {
    hide StoreAt, DelayedLoad, StoreLeft, StoreRight, ReadWord, WordOf, Pos, Accessible, Between, WriteWord;
    var a, b := Address(s, rs, extra), Second(s, rs, extra);
    if WordOf(a) in s.writable {
      FirstStore(s, rt, a, interrupted);
      var m := Between(StoreAt(s, false, rt, a).cpu, interrupted);
      assert Address(m, rs, extra + 3) == b;
      SecondStore(m, rt, b);
      assert m == DelayedLoad(s, 0, 0).(mem := m.mem) by { Delayed(s, m); }
    } else {
      assert StoreAt(s, false, rt, a).Fault? by { NoFirstStore(s, rt, a); }
    }
  }

  lemma Delayed(s: Cpu, m: Cpu)
    requires s.Valid() && m.regs == DelayedLoad(s, 0, 0).regs && m.loadReg == 0 && m.loadValue == 0
    requires m.readable == s.readable && m.writable == s.writable
    ensures m == DelayedLoad(s, 0, 0).(mem := m.mem)
  {
  }

  lemma NoFirstStore(s: Cpu, rt: nat, a: nat)
    requires s.Valid() && rt < NUM_GP_REGS && WordOf(a) !in s.writable
    ensures StoreAt(s, false, rt, a).Fault?
  {
  }

  lemma StoredBytes(mem: seq<byte>, a: uint32, v: uint32)
    requires |mem| < TWO_32 - 4 && Accessible(mem, WordOf(a)) && Accessible(mem, WordOf(a + 3))
    ensures a + 4 <= |mem| && Stored(mem, a, v, a + 3, v) == Overlay(mem, a, WordBytes(v))
  {
    TwoWords(mem, a);
    hide Stored, WordBytes, WordOf, Pos;
    forall i | 0 <= i < |mem|
      ensures Stored(mem, a, v, a + 3, v)[i] == Overlay(mem, a, WordBytes(v))[i]
    {
      StoredAt(mem, a, v, a + 3, v, i);
    }
  }

  /** For every address A, if no load that changes the base or the stored register is in progress: the pair stores the
      register's four bytes at A to A+3 and changes nothing else; it faults exactly when one of the two words cannot be
      written. */
  lemma StorePairStores(s: Cpu, rt: nat, rs: nat, extra: int, interrupted: bool)
    requires s.Valid() && rt < NUM_GP_REGS && rs < NUM_GP_REGS && Steady(s, rs) && Steady(s, rt)
    ensures var a, o := Address(s, rs, extra), StorePair(s, rt, rs, extra, interrupted);
      && (o.Done? <==> WordOf(a) in s.writable && WordOf(a + 3) in s.writable)
      && (o.Done? ==>
            a + 4 <= |s.mem| && o.cpu == DelayedLoad(s, 0, 0).(mem := Overlay(s.mem, a, WordBytes(s.regs[rt]))))
  {
    assert After(s, rt) == s.regs[rt];
    hide StorePair, Address, Second, DelayedLoad, WordOf, Pos, Stored, WordBytes, Steady, Accessible, After;
    StorePairDoes(s, rt, rs, extra, interrupted);
    SecondIs(s, rs, extra);
    var a: int := Address(s, rs, extra);
    if WordOf(a) in s.writable {
      TwoWords(s.mem, a);
      if WordOf(a + 3) in s.writable {
        StoredBytes(s.mem, a, s.regs[rt]);
      }
    }
  }

  // ---------------------------------------------------------------- when storing goes wrong

  function With(s: Cpu, mem: seq<byte>, rt: nat, v: uint32): (s': Cpu)
    requires rt < |s.regs|
  {
    s.(mem := mem, regs := s.regs[rt := v])
  }

  /** The pair stores the register's four bytes at its address and leaves the rest of memory alone. */
  ghost predicate StoresFour(s: Cpu, rt: nat, rs: nat, extra: int, interrupted: bool)
    requires s.Valid() && rt < NUM_GP_REGS && rs < NUM_GP_REGS
  {
    var a, o := Address(s, rs, extra), StorePair(s, rt, rs, extra, interrupted);
    o.Done? && a + 4 <= |s.mem| && o.cpu.mem == Overlay(s.mem, a, WordBytes(s.regs[rt]))
  }

  lemma WithValid(s: Cpu, mem: seq<byte>, rt: nat, rs: nat, extra: int, v: uint32)
    requires s.Valid() && |mem| == |s.mem| && 0 < rt < NUM_GP_REGS && rs < NUM_GP_REGS && rt != rs
    ensures var s' := With(s, mem, rt, v);
      && s'.Valid() && Address(s', rs, extra) == Address(s, rs, extra) && Second(s', rs, extra) == Second(s, rs, extra)
      && (Steady(s', rs) <==> Steady(s, rs)) && (if s.loadReg == rt then Steady(s, rs) else Steady(s', rt))
      && After(s', rt) == if s.loadReg == rt then s.loadValue else v
  {
  }

  /** A value that differs in its top byte from what a load in progress will make of the register. */
  function WrongValue(s: Cpu, rt: nat): (v: uint32) {
    if s.loadReg == rt && WordBytes(s.loadValue)[3] == 1 then 0 else 0x100_0000
  }

  lemma WrongValueBytes(s: Cpu, rt: nat)
    ensures var bytes := WordBytes(WrongValue(s, rt));
      && bytes[0] == bytes[1] == bytes[2] == 0
      && if s.loadReg == rt then bytes[3] != WordBytes(s.loadValue)[3] else bytes[3] == 1
  {
  }

  /** The byte at the second address always becomes the top byte of what the register has become. */
  lemma TopByteStored(s: Cpu, rt: nat, rs: nat, extra: int, interrupted: bool)
    requires s.Valid() && rt < NUM_GP_REGS && rs < NUM_GP_REGS
    ensures var b, o := Second(s, rs, extra), StorePair(s, rt, rs, extra, interrupted);
      o.Done? ==> b < |s.mem| == |o.cpu.mem| && o.cpu.mem[b] == WordBytes(After(s, rt))[3]
  {
    hide StorePair, Address, Second, DelayedLoad, WordOf, Pos, Stored, WordBytes, Accessible, After;
    StorePairDoes(s, rt, rs, extra, interrupted);
    var a: int, b: int := Address(s, rs, extra), Second(s, rs, extra);
    if WordOf(a) in s.writable && WordOf(b) in s.writable {
      InMemory(s.mem, b);
      StoredAt(s.mem, a, s.regs[rt], b, After(s, rt), b);
    }
  }

  /** A value and a memory of zeros with which the pair goes wrong. */
  lemma UnsteadyStoresWrong(s: Cpu, rt: nat, rs: nat, extra: int, interrupted: bool) returns (mem: seq<byte>, v: uint32)
    requires s.Valid() && 0 < rt < NUM_GP_REGS && rs < NUM_GP_REGS && rt != rs && (s.loadReg == rt || !Steady(s, rs))
    requires WordOf(Address(s, rs, extra)) in s.writable
    ensures |mem| == |s.mem|
    ensures With(s, mem, rt, v).Valid() && !StoresFour(With(s, mem, rt, v), rt, rs, extra, interrupted)
  {
    hide DelayedLoad, Address, Second, WordOf, WordBytes, Steady, Accessible, After, StorePair, WrongValue;
    mem, v := OneAt(|s.mem|, |s.mem|), WrongValue(s, rt);
    WrongValueBytes(s, rt);
    WithValid(s, mem, rt, rs, extra, v);
    var s' := With(s, mem, rt, v);
    SecondIs(s, rs, extra);
    TwoWords(s.mem, Address(s, rs, extra));
    TopByteStored(s', rt, rs, extra, interrupted);
    var a: int, b: int, bytes := Address(s', rs, extra), Second(s', rs, extra), WordBytes(v);
    if a + 4 <= |mem| && b < |mem| {
      assert Overlay(mem, a, bytes)[b] == if a <= b < a + 4 then bytes[b - a] else 0;
    }
  }

  /** Whatever memory and the register hold, the pair stores the register's four bytes at its address: exactly when no
      load into the register is in progress, and none that changes the base. */
  lemma StorePairRightIff(s: Cpu, rt: nat, rs: nat, extra: int, interrupted: bool)
    requires s.Valid() && 0 < rt < NUM_GP_REGS && rs < NUM_GP_REGS && rt != rs
    requires WordOf(Address(s, rs, extra)) in s.writable && WordOf(Address(s, rs, extra) as int + 3) in s.writable
    ensures s.loadReg != rt && Steady(s, rs) <==>
      forall mem, v: uint32 :: |mem| == |s.mem| ==>
        With(s, mem, rt, v).Valid() && StoresFour(With(s, mem, rt, v), rt, rs, extra, interrupted)
  {
    if s.loadReg != rt && Steady(s, rs) {
      forall mem: seq<byte>, v: uint32 | |mem| == |s.mem|
        ensures With(s, mem, rt, v).Valid() && StoresFour(With(s, mem, rt, v), rt, rs, extra, interrupted)
      {
        WithValid(s, mem, rt, rs, extra, v);
        hide StorePair, Address, DelayedLoad, WordOf, WordBytes, Steady;
        StorePairStores(With(s, mem, rt, v), rt, rs, extra, interrupted);
      }
    } else {
      hide Steady, StoresFour;
      var _, _ := UnsteadyStoresWrong(s, rt, rs, extra, interrupted);
    }
  }

  // ---------------------------------------------------------------- round trip

  /** What the pair stores, the pair loads back. */
  lemma StoreThenLoad(s: Cpu, rt: nat, to: nat, rs: nat, extra: int, i1: bool, i2: bool)
    requires s.Valid() && 0 < to < NUM_GP_REGS && rt < NUM_GP_REGS && rs < NUM_GP_REGS && to != rs
    requires Steady(s, rs) && Steady(s, rt)
    requires StorePair(s, rt, rs, extra, i1).Done?
    ensures var m := StorePair(s, rt, rs, extra, i1).cpu;
      LoadPair(m, to, rs, extra, i2).Done? && LoadPair(m, to, rs, extra, i2).cpu.regs[to] == s.regs[rt]
  {
    hide StorePair, LoadPair, Address, DelayedLoad, WordBytes, Steady, WordOf, Accessible;
    StorePairStores(s, rt, rs, extra, i1);
    var m, a := StorePair(s, rt, rs, extra, i1).cpu, Address(s, rs, extra);
    var mem' := Overlay(s.mem, a, WordBytes(s.regs[rt]));
    AfterStore(s, rs, extra, mem');
    LoadPairLoads(m, to, rs, extra, i2);
    var r := LoadPair(m, to, rs, extra, i2).cpu.regs[to];
    assert WordBytes(r) == WordBytes(s.regs[rt]);
    WordRoundTrip(r);
    WordRoundTrip(s.regs[rt]);
  }

  lemma AfterStore(s: Cpu, rs: nat, extra: int, mem': seq<byte>)
    requires s.Valid() && rs < NUM_GP_REGS && Steady(s, rs) && |mem'| == |s.mem|
    ensures var m := DelayedLoad(s, 0, 0).(mem := mem');
      && m.Valid() && Steady(m, rs) && Address(m, rs, extra) == Address(s, rs, extra)
      && m.readable == s.readable && s.writable <= s.readable
  {
    var m := DelayedLoad(s, 0, 0).(mem := mem');
    assert m.regs[rs] == s.regs[rs];
  }
}
