/** The file system over whole runs: any sequence of operations after formatting. */
module FsRuns {
  import opened Words
  import opened Bitmaps
  import opened Disks
  import opened FileHeaders
  import opened OpenFiles
  import opened Directories
  import opened FsViews
  import opened FsImages

  type FileSize = n: nat | n <= 3840

  datatype FsOp =
    | Create(name: CString, size: FileSize)
    | Remove(name: CString)
    | Write(name: CString, position: nat, data: seq<byte>)  // Open, then WriteAt
    | Read(name: CString, position: nat, count: nat)        // Open, then ReadAt

  /** What the caller learns. */
  datatype Outcome = Failed | Succeeded | Wrote(count: nat) | Got(bytes: seq<byte>)

  /** What one operation does to a consistent disk. */
  ghost predicate FsStep(img: Image, op: FsOp, img': Image, out: Outcome)
    requires Consistent(img)
  {
    match op
    case Create(name, size) =>
      if CanCreate(ViewOf(img), name, size)
      then out == Succeeded && exists sector, h :: Created(img, img', name, size, sector, h)
      else out == Failed && img' == img
    case Remove(name) =>
      if Key(name) in Files(img) then out == Succeeded && Removed(img, img', name) else out == Failed && img' == img
    case Write(name, position, data) =>
      if Key(name) in Files(img) then
        var n := Clip(|Files(img)[Key(name)]|, |data|, position);
        out == Wrote(n) && Written(img, img', Key(name), position, data[..n])
      else out == Failed && img' == img
    case Read(name, position, count) =>
      && img' == img
      && if Key(name) in Files(img) then
           var bytes := Files(img)[Key(name)];
           out == Got(Slice(bytes, position, Clip(|bytes|, count, position)))
         else out == Failed
  }

  /** The same operation on a plain map from at most ten names to byte strings. */
  ghost predicate MapStep(files: map<CString, seq<byte>>, op: FsOp, files': map<CString, seq<byte>>, out: Outcome) {
    match op
    case Create(name, size) =>
      if Key(name) !in files && |files| < NUM_DIR_ENTRIES
      then out == Succeeded && AddsFile(files, files', Key(name), size)
      else out == Failed && files' == files
    case Remove(name) =>
      files' == files - {Key(name)} && out == if Key(name) in files then Succeeded else Failed
    case Write(name, position, data) =>
      if Key(name) in files then
        var bytes := files[Key(name)];
        var n := Clip(|bytes|, |data|, position);
        out == Wrote(n) && files' == files[Key(name) := Splice(bytes, position, data[..n])]
      else out == Failed && files' == files
    case Read(name, position, count) =>
      && files' == files
      && if Key(name) in files
         then out == Got(Slice(files[Key(name)], position, Clip(|files[Key(name)]|, count, position)))
         else out == Failed
  }

  lemma StepRefines(img: Image, op: FsOp, img': Image, out: Outcome)
    requires Consistent(img) && FsStep(img, op, img', out)
    ensures Consistent(img') && MapStep(Files(img), op, Files(img'), out)
  {
    hide View.Consistent, ViewOf, Files, Created, Removed, Written, CanCreate;
    match op
    case Create(name, size) =>
      CreateSucceedsIff(img, name, size);
      if CanCreate(ViewOf(img), name, size) {
        var sector, h :| Created(img, img', name, size, sector, h);
        CreateRefines(img, img', name, size, sector, h);
      }
    case Remove(name) =>
      if Key(name) in Files(img) {
        RemoveRefines(img, img', name);
      }
    case Write(name, position, data) =>
      if Key(name) in Files(img) {
        WriteRefines(img, img', Key(name), position, data[..Clip(|Files(img)[Key(name)]|, |data|, position)]);
      }
    case Read(_, _, _) =>
  }

  /** A file that was opened can be used until it is removed: the header cached by OpenFile stays the header
      on the disk whatever else happens. */
  lemma OpenStaysGood(img: Image, op: FsOp, img': Image, out: Outcome, key: CString)
    requires Consistent(img) && FsStep(img, op, img', out) && key in Files(img)
    requires op.Remove? ==> Key(op.name) != key
    ensures Consistent(img') && key in Files(img') && FileHeaderOf(img', key) == FileHeaderOf(img, key)
  {
    hide View.Consistent, ViewOf, Files, Created, Removed, Written, CanCreate, FileHeaderOf;
    StepRefines(img, op, img', out);
    FilesAt(img, key);
    FilesAt(img', key);
    match op
    case Create(name, size) =>
      if CanCreate(ViewOf(img), name, size) {
        var sector, h :| Created(img, img', name, size, sector, h);
        CreatedOldContent(img, img', name, size, sector, h, key);
      }
    case Remove(name) =>
      if Key(name) in Files(img) {
        RemovedOldContent(img, img', name, key);
      }
    case Write(name, position, data) =>
      if Key(name) in Files(img) {
        var n := Clip(|Files(img)[Key(name)]|, |data|, position);
        WrittenImage(img, img', Key(name), position, data[..n]);
        WrittenContent(img, img', Key(name), position, data[..n], key);
      }
    case Read(_, _, _) =>
  }

  /** The disks passed through, and the outcomes reported, while a sequence of operations is carried out. */
  ghost predicate IsRun(disks: seq<Image>, ops: seq<FsOp>, outs: seq<Outcome>) {
    && |disks| == |ops| + 1 && |outs| == |ops|
    && forall i :: 0 <= i < |ops| && Consistent(disks[i]) ==> FsStep(disks[i], ops[i], disks[i + 1], outs[i])
  }

  lemma RunMore(disks: seq<Image>, ops: seq<FsOp>, outs: seq<Outcome>, op: FsOp, img: Image, out: Outcome)
    requires IsRun(disks, ops, outs) && Consistent(disks[|ops|]) && FsStep(disks[|ops|], op, img, out)
    ensures IsRun(disks + [img], ops + [op], outs + [out])
  {
    hide FsStep, Consistent;
  }

  /** Every disk of every run is consistent, and the run is a run of the plain map, outcomes included. */
  lemma {:induction false} RunRefines(disks: seq<Image>, ops: seq<FsOp>, outs: seq<Outcome>, i: nat)
    requires IsRun(disks, ops, outs) && Consistent(disks[0]) && i <= |ops|
    ensures Consistent(disks[i]) && |Files(disks[i])| <= NUM_DIR_ENTRIES
    ensures i > 0 ==> Consistent(disks[i - 1]) && MapStep(Files(disks[i - 1]), ops[i - 1], Files(disks[i]), outs[i - 1])
  {
    hide Consistent, FsStep, MapStep, Files;
    if i > 0 {
      RunRefines(disks, ops, outs, i - 1);
      StepRefines(disks[i - 1], ops[i - 1], disks[i], outs[i - 1]);
    }
    CreateFailsWhen(disks[i], [], 0);
  }

  // ---------------------------------------------------------------- ownership, spelled out

  lemma ClaimsDistinct(v: View, k: nat)
    requires v.Consistent() && v.Live(k)
    ensures forall i, j :: 0 <= i < j < |v.Claims(k)| ==> v.Claims(k)[i] != v.Claims(k)[j]
    ensures |v.Claims(k)| == 1 + DivRoundUp(v.headers[v.HeaderSector(k)].numBytes, SECTOR_SIZE)
  {
    assert v.HeaderOk(k);
    var h := v.headers[v.HeaderSector(k)];
    var c := v.Claims(k);
    assert c == [v.HeaderSector(k)] + h.Data();
    forall i, j | 0 <= i < j < |c|
      ensures c[i] != c[j]
    {
      assert c[j] == h.Data()[j - 1];
      if i > 0 {
        assert c[i] == h.Data()[i - 1];
      }
    }
  }

  /** A sector is marked exactly when it has an owner, and then it has one owner and one place there. */
  lemma OwnedOnce(img: Image, s: int)
    requires Consistent(img) && 0 <= s < NUM_SECTORS
    ensures ViewOf(img).bits[s] <==>
      exists k: nat, i: nat :: ViewOf(img).Live(k) && i < |ViewOf(img).Claims(k)| && ViewOf(img).Claims(k)[i] == s
    ensures forall k: nat, i: nat, k': nat, i': nat ::
      (ViewOf(img).Live(k) && i < |ViewOf(img).Claims(k)| && ViewOf(img).Claims(k)[i] == s
       && ViewOf(img).Live(k') && i' < |ViewOf(img).Claims(k')| && ViewOf(img).Claims(k')[i'] == s)
      ==> k == k' && i == i'
  {
    hide ViewOf;
    var v := ViewOf(img);
    if v.Marked(s) {
      var k: nat :| v.Live(k) && s in v.Claims(k);
      var i: nat :| i < |v.Claims(k)| && v.Claims(k)[i] == s;
    }
    forall k: nat, i: nat | v.Live(k) && i < |v.Claims(k)| && v.Claims(k)[i] == s
      ensures v.Marked(s)
      ensures forall k': nat, i': nat ::
        v.Live(k') && i' < |v.Claims(k')| && v.Claims(k')[i'] == s ==> k == k' && i == i'
    {
      assert s in v.Claims(k);
      ClaimsDistinct(v, k);
      forall k': nat, i': nat | v.Live(k') && i' < |v.Claims(k')| && v.Claims(k')[i'] == s
        ensures k == k' && i == i'
      {
        assert s in v.Claims(k');
      }
    }
  }

  // ---------------------------------------------------------------- space

  /** The number of sectors claimed by the first `n` owners. */
  function Claimed(v: View, n: nat): (c: nat)
    requires v.Shaped() && n <= NUM_OWNERS
  {
    if n == 0 then 0 else Claimed(v, n - 1) + (if v.Live(n - 1) then |v.Claims(n - 1)| else 0)
  }

  /** The bits that the first `n` owners account for. */
  ghost function ClaimedBits(v: View, n: nat): (bits: seq<bool>)
    requires v.Shaped() && n <= NUM_OWNERS
    ensures |bits| == NUM_SECTORS
  {
    seq(NUM_SECTORS, s => exists k: nat :: k < n && v.Live(k) && s in v.Claims(k))
  }

  lemma ClaimedBitsStep(v: View, n: nat)
    requires v.Consistent() && n < NUM_OWNERS && v.Live(n)
    ensures DistinctClear(ClaimedBits(v, n), v.Claims(n))
    ensures Updated(ClaimedBits(v, n), ClaimedBits(v, n + 1), v.Claims(n), true)
  {
    hide DistinctKeys, Header.WellFormed;
    ClaimsDistinct(v, n);
    forall i | 0 <= i < |v.Claims(n)|
      ensures 0 <= v.Claims(n)[i] < NUM_SECTORS && !ClaimedBits(v, n)[v.Claims(n)[i]]
    {
      var s := v.Claims(n)[i];
      assert s in v.Claims(n) && v.Marked(s);
    }
    forall s | 0 <= s < NUM_SECTORS
      ensures ClaimedBits(v, n + 1)[s] == (s in v.Claims(n) || ClaimedBits(v, n)[s])
    {
      if s in v.Claims(n) {
        assert n < n + 1 && v.Live(n) && s in v.Claims(n);
      } else if ClaimedBits(v, n)[s] {
        var k: nat :| k < n && v.Live(k) && s in v.Claims(k);
        assert k < n + 1 && v.Live(k) && s in v.Claims(k);
      }
    }
  }

  lemma {:induction false} ClaimedCount(v: View, n: nat)
    requires v.Shaped() && v.Consistent() && n <= NUM_OWNERS
    ensures CountClear(ClaimedBits(v, n)) == NUM_SECTORS - Claimed(v, n)
  {
    hide View.Consistent, DistinctClear, Updated;
    if n == 0 {
      AllClear(ClaimedBits(v, 0));
    } else {
      ClaimedCount(v, n - 1);
      if v.Live(n - 1) {
        ClaimedBitsStep(v, n - 1);
        TakenCount(ClaimedBits(v, n - 1), ClaimedBits(v, n), v.Claims(n - 1));
      } else {
        assert ClaimedBits(v, n) == ClaimedBits(v, n - 1);
      }
    }
  }

  /** Conservation of space: every sector is either free or claimed, none is lost. */
  lemma SpaceConserved(v: View)
    requires v.Consistent()
    ensures CountClear(v.bits) + Claimed(v, NUM_OWNERS) == NUM_SECTORS
  {
    hide CountClear, Claimed, DistinctKeys, Header.WellFormed;
    ClaimedCount(v, NUM_OWNERS);
    forall s | 0 <= s < NUM_SECTORS
      ensures ClaimedBits(v, NUM_OWNERS)[s] == v.bits[s]
    {
      if v.Marked(s) {
        var k: nat :| v.Live(k) && s in v.Claims(k);
        assert k < NUM_OWNERS;
      }
      if ClaimedBits(v, NUM_OWNERS)[s] {
        var k: nat :| k < NUM_OWNERS && v.Live(k) && s in v.Claims(k);
        assert v.Marked(s);
      }
    }
    assert ClaimedBits(v, NUM_OWNERS) == v.bits;
  }

  /** The number of entries in use. */
  function InUse(table: seq<DirectoryEntry>): (n: nat)
    ensures n <= |table|
    ensures n == |table| <==> FreeSlot(table) == -1
  {
    if table == [] then 0
    else
      var rest := table[..|table| - 1];
      assert forall i :: 0 <= i < |rest| ==> rest[i] == table[i];
      InUse(rest) + (if table[|table| - 1].inUse then 1 else 0)
  }

  lemma {:induction false} KeysCount(table: seq<DirectoryEntry>)
    requires DistinctKeys(table)
    ensures |LiveKeys(table)| == InUse(table)
  {
    hide StoredKey, FreeSlot, Lookup, LiveKeys, DistinctKeys;
    if table == [] {
      forall key: CString
        ensures key !in LiveKeys(table)
      {
        KeyAt(table, key);
      }
    } else {
      var n := |table| - 1;
      var rest, last := table[..n], table[n];
      assert DistinctKeys(rest) by {
        DistinctPrefix(table, n);
      }
      KeysCount(rest);
      forall key: CString
        ensures key in LiveKeys(table) <==> key in LiveKeys(rest) || (last.inUse && key == StoredKey(last.name))
        ensures last.inUse && key == StoredKey(last.name) ==> key !in LiveKeys(rest)
      {
        KeysExtended(table, key);
      }
      assert LiveKeys(table) == if last.inUse then LiveKeys(rest) + {StoredKey(last.name)} else LiveKeys(rest);
    }
  }

  lemma DistinctPrefix(table: seq<DirectoryEntry>, n: nat)
    requires DistinctKeys(table) && n <= |table|
    ensures DistinctKeys(table[..n])
  {
    hide StoredKey;
  }

  lemma KeysExtended(table: seq<DirectoryEntry>, key: CString)
    requires DistinctKeys(table) && table != []
    ensures var rest, last := table[..|table| - 1], table[|table| - 1];
      && (key in LiveKeys(table) <==> key in LiveKeys(rest) || (last.inUse && key == StoredKey(last.name)))
      && (last.inUse && key == StoredKey(last.name) ==> key !in LiveKeys(rest))
  {
    hide StoredKey, LiveKeys;
    KeyAt(table, key);
    KeyAt(table[..|table| - 1], key);
  }

  lemma KeyAt(table: seq<DirectoryEntry>, key: CString)
    ensures key in LiveKeys(table) <==>
      exists i :: 0 <= i < |table| && table[i].inUse && StoredKey(table[i].name) == key
  {
    hide StoredKey, LookupFrom;
    var i := Lookup(table, key);
    if i != -1 {
      assert Matches(table[i], key);
    }
    if j :| 0 <= j < |table| && table[j].inUse && StoredKey(table[j].name) == key {
      assert Matches(table[j], key);
    }
  }

  /** There are at most ten files, and Create fails exactly when the name is taken, there are ten files,
      or the sectors not claimed by anyone do not suffice for the header and the data. */
  lemma CreateFailsWhen(img: Image, name: CString, size: nat)
    requires Consistent(img)
    ensures |Files(img)| <= NUM_DIR_ENTRIES
    ensures CanCreate(ViewOf(img), name, size) <==>
      && Key(name) !in Files(img)
      && |Files(img)| < NUM_DIR_ENTRIES
      && Claimed(ViewOf(img), NUM_OWNERS) + 1 + DivRoundUp(size, SECTOR_SIZE) <= NUM_SECTORS
  {
    hide CountClear, Claimed, ViewOf, LiveKeys, InUse;
    var v := ViewOf(img);
    SpaceConserved(v);
    KeysCount(v.table);
    assert Files(img).Keys == LiveKeys(v.table);
    FilesAt(img, Key(name));
  }

  /** Every owner holds at most a header sector and thirty data sectors. */
  lemma {:induction false} ClaimedAtMost(v: View, n: nat)
    requires v.Consistent() && n <= NUM_OWNERS
    ensures Claimed(v, n) <= (1 + NUM_DIRECT) * n
  {
    if n > 0 {
      ClaimedAtMost(v, n - 1);
      if v.Live(n - 1) {
        assert v.HeaderOk(n - 1);
        ClaimsDistinct(v, n - 1);
      }
    }
  }

  /** The disk never runs out of space before the directory does: Create succeeds exactly when the name is new and
      there are fewer than ten files. */
  lemma CreateSucceedsIff(img: Image, name: CString, size: FileSize)
    requires Consistent(img)
    ensures CanCreate(ViewOf(img), name, size) <==> Key(name) !in Files(img) && |Files(img)| < NUM_DIR_ENTRIES
  {
    hide Claimed, Files, CanCreate, View.Consistent;
    CreateFailsWhen(img, name, size);
    ClaimedAtMost(ViewOf(img), NUM_OWNERS);
  }

  /** Create compares the size only with the number of free sectors. The calls that pass all its tests although the
      sectors do not fit into a header are exactly those with a new name, fewer than ten files, a size above
      MAX_FILE_SIZE and enough sectors that nobody claims; whenever the name is new and the directory has room, there
      are such sizes. */
  lemma OversizePassesTheTest(img: Image, name: CString, size: nat)
    requires Consistent(img)
    ensures CanCreate(ViewOf(img), name, size) && DivRoundUp(size, SECTOR_SIZE) > NUM_DIRECT <==>
      && Key(name) !in Files(img) && |Files(img)| < NUM_DIR_ENTRIES && MAX_FILE_SIZE < size
      && Claimed(ViewOf(img), NUM_OWNERS) + 1 + DivRoundUp(size, SECTOR_SIZE) <= NUM_SECTORS
    ensures Key(name) !in Files(img) && |Files(img)| < NUM_DIR_ENTRIES ==>
      CanCreate(ViewOf(img), name, MAX_FILE_SIZE + 1) && DivRoundUp(MAX_FILE_SIZE + 1, SECTOR_SIZE) > NUM_DIRECT
  {
    hide Claimed, View.Consistent, Files, CanCreate;
    CreateFailsWhen(img, name, size);
    CreateFailsWhen(img, name, MAX_FILE_SIZE + 1);
    ClaimedAtMost(ViewOf(img), NUM_OWNERS);
  }

  // ---------------------------------------------------------------- undoing

  /** Create followed by Remove of the same file gives back the same free map and the same files. */
  lemma CreateRemoveIdentity(img: Image, img1: Image, img2: Image, name: CString, size: nat, sector: int32, h: Header)
    requires Consistent(img) && Created(img, img1, name, size, sector, h)
    requires Removed(img1, img2, name)
    ensures Consistent(img2) && Files(img2) == Files(img) && ViewOf(img2).bits == ViewOf(img).bits
  {
    hide View.Consistent, ViewOf, Files, CreatedView, RemovedView, Framed;
    CreateRefines(img, img1, name, size, sector, h);
    RemoveRefines(img1, img2, name);
    CreateThenRemove(ViewOf(img), ViewOf(img1), ViewOf(img2), name, size, sector, h);
  }
}
