/** The meaning of a formatted disk: which sectors belong to whom, and which files there are.
    The free map and the directory are themselves files whose headers sit in sectors 0 and 1, so the
    free map also governs the sectors that hold it. */
module FsViews {
  import opened Words
  import opened Bitmaps
  import opened Disks
  import opened FileHeaders
  import opened Directories

  const FREE_MAP_SECTOR := 0
  const DIRECTORY_SECTOR := 1
  const FREE_MAP_FILE_SIZE := 128 // NumSectors / BitsInByte
  const NUM_DIR_ENTRIES := 10
  const DIRECTORY_FILE_SIZE := 200 // sizeof(DirectoryEntry) * NumDirEntries
  const NUM_OWNERS := 12 // the two system files and the directory entries

  /** What is read off the disk: the free map, the directory, and every sector taken as a header. */
  datatype View = View(bits: seq<bool>, table: seq<DirectoryEntry>, headers: seq<Header>) {

    predicate Shaped() {
      |bits| == NUM_SECTORS && |table| == NUM_DIR_ENTRIES && |headers| == NUM_SECTORS
    }

    // Owners 0 and 1 are the system files; owner 2 + i is directory entry i.

    predicate Live(k: nat)
      requires Shaped()
    {
      k < 2 || (k < NUM_OWNERS && table[k - 2].inUse)
    }

    function HeaderSector(k: nat): (s: int)
      requires Shaped() && Live(k)
    {
      if k < 2 then k else table[k - 2].sector
    }

    /** The sectors owner `k` holds: its header's and its data's. */
    function Claims(k: nat): (s: seq<int>)
      requires Shaped() && Live(k)
    {
      var h := HeaderSector(k);
      if 0 <= h < NUM_SECTORS then [h] + headers[h].Data() else []
    }

    predicate Marked(s: int) {
      0 <= s < |bits| && bits[s]
    }

    ghost predicate HeaderOk(k: nat)
      requires Shaped() && Live(k)
    {
      && 0 <= HeaderSector(k) < NUM_SECTORS
      && headers[HeaderSector(k)].WellFormed()
      && HeaderSector(k) !in headers[HeaderSector(k)].Data()
    }

    /** The ownership invariant: every marked sector has exactly one owner, every other sector none. */
    ghost predicate Consistent() {
      && Shaped()
      && (forall k: nat :: Live(k) ==> HeaderOk(k))
      && headers[FREE_MAP_SECTOR].numBytes == FREE_MAP_FILE_SIZE
      && headers[DIRECTORY_SECTOR].numBytes == DIRECTORY_FILE_SIZE
      && (forall j: nat, k: nat, s :: Live(j) && Live(k) && j != k && s in Claims(j) ==> s !in Claims(k))
      && (forall k: nat, s {:trigger s in Claims(k)} :: Live(k) && s in Claims(k) ==> Marked(s))
      && (forall s {:trigger Marked(s)} {:trigger bits[s]} :: Marked(s) ==> exists k: nat :: Live(k) && s in Claims(k))
      && DistinctKeys(table)
    }
  }

  lemma ClaimsInRange(v: View, k: nat, s: int)
    requires v.Shaped() && v.Live(k) && v.HeaderOk(k) && s in v.Claims(k)
    ensures 0 <= s < NUM_SECTORS
  {
    var h := v.headers[v.HeaderSector(k)];
    if s in h.Data() {
      var i :| 0 <= i < |h.Data()| && h.Data()[i] == s;
      assert h.dataSectors[i] == s;
    }
  }

  /** Owners other than `k` keep their entries and their headers. */
  ghost predicate OthersKept(v: View, w: View, k: nat)
    requires v.Shaped() && w.Shaped()
  {
    forall j: nat :: j != k ==>
      && v.Live(j) == w.Live(j)
      && (v.Live(j) ==> w.HeaderSector(j) == v.HeaderSector(j) && w.Claims(j) == v.Claims(j)
                        && (v.HeaderOk(j) ==> w.HeaderOk(j)))
  }

  // ---------------------------------------------------------------- creating a file

  /** Create's effect when it succeeds: `sector` is the new header's, `h` its contents. */
  ghost predicate CreatedView(v: View, w: View, name: CString, size: nat, sector: int32, h: Header)
    requires v.Shaped() && w.Shaped()
  {
    && Lookup(v.table, Key(name)) == -1
    && FreeSlot(v.table) != -1
    && sector == FirstClear(v.bits) && sector != -1
    && h.WellFormed() && h.numBytes == size
    && FirstFit(v.bits[sector := true], h.Data())
    && w.table == WithEntry(v.table, FreeSlot(v.table), name, sector)
    && w.headers[sector] == h
    && Updated(v.bits[sector := true], w.bits, h.Data(), true)
    && (forall k: nat :: v.Live(k) && 0 <= v.HeaderSector(k) < NUM_SECTORS ==>
          w.headers[v.HeaderSector(k)] == v.headers[v.HeaderSector(k)])
  }

  lemma CreatedKeepsOthers(v: View, w: View, name: CString, size: nat, sector: int32, h: Header)
    requires v.Consistent() && w.Shaped() && CreatedView(v, w, name, size, sector, h)
    ensures OthersKept(v, w, 2 + FreeSlot(v.table))
  {
  }

  /** The new owner's sectors were all free. */
  lemma CreatedClaims(v: View, w: View, name: CString, size: nat, sector: int32, h: Header)
    requires v.Consistent() && w.Shaped() && CreatedView(v, w, name, size, sector, h)
    ensures var k := 2 + FreeSlot(v.table);
      w.Live(k) && w.HeaderOk(k) && w.Claims(k) == [sector as int] + h.Data()
      && (forall s :: s in w.Claims(k) ==> 0 <= s < NUM_SECTORS && !v.bits[s])
      && (forall s :: 0 <= s < NUM_SECTORS ==> w.bits[s] == (v.bits[s] || s in w.Claims(k)))
  {
    forall s | s in h.Data()
      ensures 0 <= s < NUM_SECTORS && s != sector && !v.bits[s]
    {
      var i :| 0 <= i < |h.Data()| && h.Data()[i] == s;
    }
  }

  lemma WithEntryKeys(table: seq<DirectoryEntry>, i: nat, name: CString, sector: int32)
    requires i < |table| && !table[i].inUse && Lookup(table, Key(name)) == -1 && DistinctKeys(table)
    ensures DistinctKeys(WithEntry(table, i, name, sector))
  {
    StrNCopyKey(table[i].name, name);
    var after := WithEntry(table, i, name, sector);
    forall a, b | 0 <= a < b < |after| && after[a].inUse && after[b].inUse
      ensures StoredKey(after[a].name) != StoredKey(after[b].name)
    {
      assert a != i ==> !Matches(table[a], Key(name));
      assert b != i ==> !Matches(table[b], Key(name));
    }
  }

  /** Adding an owner with free sectors keeps the invariant. */
  lemma AddOwner(v: View, w: View, k: nat)
    requires v.Consistent() && w.Shaped() && OthersKept(v, w, k) && k >= 2 && !v.Live(k)
    requires w.Live(k) && w.HeaderOk(k) && DistinctKeys(w.table)
    requires forall s :: s in w.Claims(k) ==> 0 <= s < NUM_SECTORS && !v.bits[s]
    requires forall s :: 0 <= s < NUM_SECTORS ==> w.bits[s] == (v.bits[s] || s in w.Claims(k))
    requires w.headers[0] == v.headers[0] && w.headers[1] == v.headers[1]
    ensures w.Consistent()
  {
    hide DistinctKeys, Header.WellFormed;
    forall j: nat, s | j != k && v.Live(j) && s in v.Claims(j)
      ensures s !in w.Claims(k)
    {
      ClaimsInRange(v, j, s);
      assert v.Marked(s);
    }
    forall j: nat, s | w.Live(j) && s in w.Claims(j)
      ensures w.Marked(s)
    {
      if j != k {
        ClaimsInRange(v, j, s);
      }
    }
    forall s | w.Marked(s)
      ensures exists j: nat :: w.Live(j) && s in w.Claims(j)
    {
      if v.Marked(s) {
        var j: nat :| v.Live(j) && s in v.Claims(j);
        assert w.Live(j) && s in w.Claims(j);
      } else {
        assert w.Live(k) && s in w.Claims(k);
      }
    }
  }

  lemma CreatedConsistent(v: View, w: View, name: CString, size: nat, sector: int32, h: Header)
    requires v.Consistent() && w.Shaped() && CreatedView(v, w, name, size, sector, h)
    ensures w.Consistent()
  {
    var k := 2 + FreeSlot(v.table);
    assert v.Live(0) && v.Live(1);
    CreatedKeepsOthers(v, w, name, size, sector, h);
    CreatedClaims(v, w, name, size, sector, h);
    WithEntryKeys(v.table, k - 2, name, sector);
    AddOwner(v, w, k);
  }

  lemma SameLookup(before: seq<DirectoryEntry>, after: seq<DirectoryEntry>, key: CString)
    requires |before| == |after|
    requires forall j :: 0 <= j < |before| ==> Matches(after[j], key) == Matches(before[j], key)
    ensures Lookup(after, key) == Lookup(before, key)
  {
    hide Matches;
  }

  /** The new name is found in its entry; no other name is found elsewhere than before. */
  lemma WithEntryLookup(table: seq<DirectoryEntry>, name: CString, sector: int32)
    requires Lookup(table, Key(name)) == -1 && FreeSlot(table) != -1
    ensures var after := WithEntry(table, FreeSlot(table), name, sector);
      && Lookup(after, Key(name)) == FreeSlot(table)
      && forall key: CString :: key != Key(name) ==> Lookup(after, key) == Lookup(table, key)
  {
    hide StrNCopy, StoredKey, Key, LookupFrom, FreeSlotFrom;
    var i := FreeSlot(table);
    var after := WithEntry(table, i, name, sector);
    StrNCopyKey(table[i].name, name);
    forall key: CString, j | key != Key(name) && 0 <= j < |table|
      ensures Matches(after[j], key) == Matches(table[j], key)
    {
    }
    forall key: CString | key != Key(name)
      ensures Lookup(after, key) == Lookup(table, key)
    {
      SameLookup(table, after, key);
    }
    assert forall j :: 0 <= j < |table| && j != i ==> !Matches(table[j], Key(name));
    assert forall j :: 0 <= j < |table| && j != i ==> !Matches(after[j], Key(name));
    assert Matches(after[i], Key(name));
  }

  // ---------------------------------------------------------------- removing a file

  ghost predicate RemovedView(v: View, w: View, name: CString)
    requires v.Shaped() && w.Shaped()
  {
    var i := Lookup(v.table, Key(name));
    && i != -1
    && w.table == WithoutEntry(v.table, i)
    && Updated(v.bits, w.bits, v.Claims(2 + i), false)
    && (forall k: nat :: v.Live(k) && 0 <= v.HeaderSector(k) < NUM_SECTORS ==>
          w.headers[v.HeaderSector(k)] == v.headers[v.HeaderSector(k)])
  }

  /** Dropping an owner and freeing its sectors keeps the invariant. */
  lemma DropOwner(v: View, w: View, k: nat)
    requires v.Consistent() && w.Shaped() && OthersKept(v, w, k) && k >= 2 && v.Live(k) && !w.Live(k)
    requires Updated(v.bits, w.bits, v.Claims(k), false) && DistinctKeys(w.table)
    requires w.headers[0] == v.headers[0] && w.headers[1] == v.headers[1]
    ensures w.Consistent()
  {
    hide DistinctKeys, Header.WellFormed;
    forall j: nat, s | w.Live(j) && s in w.Claims(j)
      ensures w.Marked(s)
    {
      assert v.Live(j) && s in v.Claims(j);
      assert v.Marked(s);
    }
    forall s | w.Marked(s)
      ensures exists j: nat :: w.Live(j) && s in w.Claims(j)
    {
      assert v.Marked(s);
      var j: nat :| v.Live(j) && s in v.Claims(j);
      assert w.Live(j) && s in w.Claims(j);
    }
  }

  lemma RemovedKeepsOthers(v: View, w: View, name: CString)
    requires v.Consistent() && w.Shaped() && RemovedView(v, w, name)
    ensures OthersKept(v, w, 2 + Lookup(v.table, Key(name)))
  {
  }

  lemma WithoutEntryKeys(table: seq<DirectoryEntry>, i: nat)
    requires i < |table| && DistinctKeys(table)
    ensures DistinctKeys(WithoutEntry(table, i))
  {
  }

  lemma RemovedConsistent(v: View, w: View, name: CString)
    requires v.Consistent() && w.Shaped() && RemovedView(v, w, name)
    ensures w.Consistent()
  {
    hide DistinctKeys, OthersKept, Updated, Header.WellFormed;
    var i := Lookup(v.table, Key(name));
    assert v.Live(0) && v.Live(1) && v.Live(2 + i) && !w.Live(2 + i);
    assert v.HeaderSector(0) == 0 && v.HeaderSector(1) == 1;
    RemovedKeepsOthers(v, w, name);
    WithoutEntryKeys(v.table, i);
    DropOwner(v, w, 2 + i);
  }

  /** Create followed by Remove of the same name gives back the free map bit for bit and leaves the same
      entries in use, with the same names and headers. */
  lemma CreateThenRemove(v: View, w: View, x: View, name: CString, size: nat, sector: int32, h: Header)
    requires v.Consistent() && w.Shaped() && x.Shaped()
    requires CreatedView(v, w, name, size, sector, h) && RemovedView(w, x, name)
    ensures x.bits == v.bits
    ensures forall i :: 0 <= i < NUM_DIR_ENTRIES ==> x.table[i].inUse == v.table[i].inUse
    ensures forall i :: 0 <= i < NUM_DIR_ENTRIES && v.table[i].inUse ==> x.table[i] == v.table[i]
  {
    hide StrNCopy, StoredKey, Key, LookupFrom, FreeSlotFrom, FirstFit, Header.WellFormed, View.Consistent;
    var i := FreeSlot(v.table);
    CreatedClaims(v, w, name, size, sector, h);
    WithEntryLookup(v.table, name, sector);
    forall s | 0 <= s < NUM_SECTORS
      ensures x.bits[s] == v.bits[s]
    {
      assert x.bits[s] == if s in w.Claims(2 + i) then false else w.bits[s];
    }
  }
}
