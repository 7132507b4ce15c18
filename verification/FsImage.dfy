/** The file system as a map from names to byte strings, and what Create, Remove and writing do to it. */
module FsImages {
  import opened Words
  import opened Bitmaps
  import opened Disks
  import opened FileHeaders
  import opened OpenFiles
  import opened Directories
  import opened FsViews
  import opened PersistentBitmaps

  function HeaderAt(img: Image, s: nat): (h: Header)
    requires s < NUM_SECTORS
    ensures h.Shaped()
  {
    DecodeHeader(img[s])
  }

  /** The headers in sectors 0 and 1 describe files of the right lengths. */
  ghost predicate SystemFiles(img: Image) {
    && HeaderAt(img, FREE_MAP_SECTOR).WellFormed()
    && HeaderAt(img, FREE_MAP_SECTOR).numBytes == FREE_MAP_FILE_SIZE
    && HeaderAt(img, DIRECTORY_SECTOR).WellFormed()
    && HeaderAt(img, DIRECTORY_SECTOR).numBytes == DIRECTORY_FILE_SIZE
  }

  ghost function ViewOf(img: Image): (v: View)
    requires SystemFiles(img)
    ensures v.Shaped()
  {
    View(StoredBits(Content(img, HeaderAt(img, FREE_MAP_SECTOR)), NUM_SECTORS),
         DecodeTable(Content(img, HeaderAt(img, DIRECTORY_SECTOR)), NUM_DIR_ENTRIES),
         seq(NUM_SECTORS, s requires 0 <= s < NUM_SECTORS => HeaderAt(img, s)))
  }

  ghost predicate Consistent(img: Image) {
    SystemFiles(img) && ViewOf(img).Consistent()
  }

  function LiveKeys(table: seq<DirectoryEntry>): (keys: set<CString>)
    ensures forall key :: key in keys <==> Lookup(table, key) != -1
  {
    var keys := set i | 0 <= i < |table| && table[i].inUse :: StoredKey(table[i].name);
    assert forall key :: key in keys <==> Lookup(table, key) != -1 by {
      forall key
        ensures key in keys <==> Lookup(table, key) != -1
      {
        if key in keys {
          var i :| 0 <= i < |table| && table[i].inUse && StoredKey(table[i].name) == key;
          assert Matches(table[i], key);
        }
        if Lookup(table, key) != -1 {
          var e := table[Lookup(table, key)];
          assert Matches(e, key);
        }
      }
    }
    keys
  }

  /** The header of the named file. */
  ghost function FileHeaderOf(img: Image, key: CString): (h: Header)
    requires Consistent(img) && Lookup(ViewOf(img).table, key) != -1
    ensures h.WellFormed()
  {
    var v := ViewOf(img);
    var k: nat := 2 + Lookup(v.table, key);
    assert v.Live(k) && v.HeaderOk(k);
    HeaderAt(img, v.HeaderSector(k))
  }

  ghost function FileBytes(img: Image, key: CString): (bytes: seq<byte>)
    requires Consistent(img) && Lookup(ViewOf(img).table, key) != -1
  {
    Content(img, FileHeaderOf(img, key))
  }

  /** The abstract file system. */
  ghost function Files(img: Image): (files: map<CString, seq<byte>>)
    requires Consistent(img)
  {
    map key | key in LiveKeys(ViewOf(img).table) :: FileBytes(img, key)
  }

  lemma FilesAt(img: Image, key: CString)
    requires Consistent(img)
    ensures key in Files(img) <==> Lookup(ViewOf(img).table, key) != -1
    ensures key in Files(img) ==> Files(img)[key] == Content(img, FileHeaderOf(img, key))
  {
    hide View.Consistent, Content, ViewOf, FileHeaderOf;
  }

  // ---------------------------------------------------------------- frames

  /** Only `sector` and the data of the two system files may differ. */
  ghost predicate Framed(img: Image, img': Image, sector: int)
    requires SystemFiles(img)
  {
    forall s ::
      (0 <= s < NUM_SECTORS && s != sector
       && s !in HeaderAt(img, FREE_MAP_SECTOR).Data() && s !in HeaderAt(img, DIRECTORY_SECTOR).Data())
      ==> img'[s] == img[s]
  }

  /** A live file whose claims do not contain `sector` is untouched, header and data. */
  lemma FramedOwner(img: Image, img': Image, sector: int, k: nat)
    requires Consistent(img) && Framed(img, img', sector)
    requires ViewOf(img).Live(k) && sector !in ViewOf(img).Claims(k)
    ensures img'[ViewOf(img).HeaderSector(k)] == img[ViewOf(img).HeaderSector(k)]
    ensures k >= 2 ==> forall s :: s in ViewOf(img).Claims(k) ==> 0 <= s < NUM_SECTORS && img'[s] == img[s]
  {
    var v := ViewOf(img);
    assert v.Live(0) && v.Live(1) && v.HeaderOk(0) && v.HeaderOk(1) && v.HeaderOk(k);
    var hs := v.HeaderSector(k);
    assert v.headers[0] == HeaderAt(img, 0) && v.headers[1] == HeaderAt(img, 1);
    assert hs in v.Claims(k);
    assert forall s :: s in v.headers[0].Data() ==> s in v.Claims(0);
    assert forall s :: s in v.headers[1].Data() ==> s in v.Claims(1);
    assert k != 0 ==> hs !in v.Claims(0);
    assert k != 1 ==> hs !in v.Claims(1);
    if k >= 2 {
      forall s | s in v.Claims(k)
        ensures 0 <= s < NUM_SECTORS && img'[s] == img[s]
      {
        ClaimsInRange(v, k, s);
        assert s !in v.Claims(0) && s !in v.Claims(1);
      }
    }
  }

  /** The contents of a file whose sectors are untouched. */
  lemma UntouchedContent(img: Image, img': Image, k: nat)
    requires Consistent(img) && ViewOf(img).Live(k)
    requires forall s :: s in ViewOf(img).Claims(k) ==> 0 <= s < NUM_SECTORS && img'[s] == img[s]
    ensures var s := ViewOf(img).HeaderSector(k);
      && 0 <= s < NUM_SECTORS && HeaderAt(img', s) == HeaderAt(img, s) && HeaderAt(img, s).WellFormed()
      && Content(img', HeaderAt(img, s)) == Content(img, HeaderAt(img, s))
  {
    hide DistinctKeys, DecodeTable, StoredBits, Content;
    var v := ViewOf(img);
    assert v.HeaderOk(k);
    var s := v.HeaderSector(k);
    assert v.headers[s] == HeaderAt(img, s);
    assert s in v.Claims(k);
    assert forall d :: d in v.headers[s].Data() ==> d in v.Claims(k);
    ContentFrame(img, img', HeaderAt(img, s));
  }

  // ---------------------------------------------------------------- Create

  /** Whether Create succeeds: the name is new, there is an entry for it, and room for header and data. */
  ghost predicate CanCreate(v: View, name: CString, size: nat) {
    && Lookup(v.table, Key(name)) == -1
    && FreeSlot(v.table) != -1
    && 1 + DivRoundUp(size, SECTOR_SIZE) <= CountClear(v.bits)
  }

  /** One more file, of the given length; all the others as they were. */
  ghost predicate AddsFile(before: map<CString, seq<byte>>, after: map<CString, seq<byte>>, key: CString, size: nat) {
    key !in before && key in after && |after[key]| == size && after == before[key := after[key]]
  }

  /** What a successful Create does to the disk. */
  ghost predicate Created(img: Image, img': Image, name: CString, size: nat, sector: int32, h: Header)
    requires SystemFiles(img)
  {
    && SystemFiles(img')
    && Framed(img, img', sector)
    && CreatedView(ViewOf(img), ViewOf(img'), name, size, sector, h)
  }

  /** A free sector other than the new header's is not written. */
  lemma FreeIsFramed(img: Image, img': Image, sector: int, s: int)
    requires Consistent(img) && Framed(img, img', sector) && 0 <= s < NUM_SECTORS && s != sector
    requires !ViewOf(img).bits[s]
    ensures img'[s] == img[s]
  {
    var v := ViewOf(img);
    assert v.Live(0) && v.Live(1);
    assert v.headers[0] == HeaderAt(img, 0) && v.headers[1] == HeaderAt(img, 1);
    assert s !in v.Claims(0) && s !in v.Claims(1);
  }

  lemma CreatedNewContent(img: Image, img': Image, name: CString, size: nat, sector: int32, h: Header)
    requires Consistent(img) && Created(img, img', name, size, sector, h) && Consistent(img')
    requires Lookup(ViewOf(img').table, Key(name)) == FreeSlot(ViewOf(img).table)
    ensures FileHeaderOf(img', Key(name)) == h && Content(img', h) == Content(img, h)
  {
    hide Framed, FirstFit, Updated, Content, Header.WellFormed, DecodeTable, StoredBits;
    var v, w := ViewOf(img), ViewOf(img');
    var k := 2 + FreeSlot(v.table);
    CreatedClaims(v, w, name, size, sector, h);
    assert w.HeaderSector(k) == sector && w.headers[sector] == h == HeaderAt(img', sector);
    forall s | s in h.Data()
      ensures 0 <= s < NUM_SECTORS && img[s] == img'[s]
    {
      assert s in w.Claims(k) && !v.bits[s];
      assert s != sector by {
        assert w.HeaderOk(k);
      }
      FreeIsFramed(img, img', sector, s);
    }
    ContentFrame(img, img', h);
  }

  lemma CreatedOldContent(img: Image, img': Image, name: CString, size: nat, sector: int32, h: Header, key: CString)
    requires Consistent(img) && Created(img, img', name, size, sector, h) && Consistent(img')
    requires Lookup(ViewOf(img).table, key) != -1
    ensures Lookup(ViewOf(img').table, key) != -1
    ensures FileHeaderOf(img', key) == FileHeaderOf(img, key)
    ensures Content(img', FileHeaderOf(img', key)) == Content(img, FileHeaderOf(img, key))
  {
    var v, w := ViewOf(img), ViewOf(img');
    WithEntryLookup(v.table, name, sector);
    var k: nat := 2 + Lookup(v.table, key);
    assert v.Live(k) && v.HeaderOk(k);
    assert sector !in v.Claims(k);
    FramedOwner(img, img', sector, k);
    UntouchedContent(img, img', k);
    CreatedKeepsOthers(v, w, name, size, sector, h);
    assert k != 2 + FreeSlot(v.table);
    assert w.HeaderSector(k) == v.HeaderSector(k);
  }

  lemma CreatedImage(img: Image, img': Image, name: CString, size: nat, sector: int32, h: Header)
    requires Consistent(img) && Created(img, img', name, size, sector, h)
    ensures Consistent(img') && h.WellFormed() && h.numBytes == size
    ensures Lookup(ViewOf(img).table, Key(name)) == -1
    ensures Lookup(ViewOf(img').table, Key(name)) == FreeSlot(ViewOf(img).table) != -1
    ensures forall key: CString :: key != Key(name) ==>
      Lookup(ViewOf(img').table, key) == Lookup(ViewOf(img).table, key)
  {
    hide View.Consistent, Framed, ViewOf, Header.WellFormed, FirstFit, Updated;
    CreatedConsistent(ViewOf(img), ViewOf(img'), name, size, sector, h);
    WithEntryLookup(ViewOf(img).table, name, sector);
  }

  /** A successful Create adds exactly the named file, with the length asked for and the bytes its sectors
      happened to hold, and keeps the ownership invariant. */
  lemma CreateRefines(img: Image, img': Image, name: CString, size: nat, sector: int32, h: Header)
    requires Consistent(img) && Created(img, img', name, size, sector, h)
    ensures Consistent(img') && h.WellFormed()
    ensures Key(name) !in Files(img) && |Content(img, h)| == size
    ensures Files(img') == Files(img)[Key(name) := Content(img, h)]
  {
    hide *;
    CreatedImage(img, img', name, size, sector, h);
    CreatedNewContent(img, img', name, size, sector, h);
    FilesAt(img, Key(name));
    forall key: CString
      ensures key in Files(img') <==> key in Files(img) || key == Key(name)
      ensures key in Files(img) ==> Files(img')[key] == Files(img)[key]
      ensures key == Key(name) ==> Files(img')[key] == Content(img, h)
    {
      FilesAt(img, key);
      FilesAt(img', key);
      if key in Files(img) {
        CreatedOldContent(img, img', name, size, sector, h, key);
      }
    }
  }

  // ---------------------------------------------------------------- Remove

  /** What a successful Remove does to the disk. */
  ghost predicate Removed(img: Image, img': Image, name: CString)
    requires SystemFiles(img)
  {
    && SystemFiles(img')
    && Framed(img, img', -1)
    && RemovedView(ViewOf(img), ViewOf(img'), name)
  }

  lemma RemovedPlaces(v: View, w: View, name: CString)
    requires v.Consistent() && w.Shaped() && RemovedView(v, w, name)
    ensures Lookup(w.table, Key(name)) == -1
    ensures forall key: CString :: key != Key(name) ==> Lookup(w.table, key) == Lookup(v.table, key)
  {
    var i := Lookup(v.table, Key(name));
    assert Matches(v.table[i], Key(name));
    forall j | 0 <= j < |v.table|
      ensures !Matches(w.table[j], Key(name))
    {
      if j != i && v.table[j].inUse {
        assert StoredKey(v.table[j].name) != StoredKey(v.table[i].name);
      }
    }
    forall key: CString | key != Key(name)
      ensures Lookup(w.table, key) == Lookup(v.table, key)
    {
      assert forall j :: 0 <= j < |v.table| ==> Matches(w.table[j], key) == Matches(v.table[j], key);
    }
  }

  lemma RemovedOldContent(img: Image, img': Image, name: CString, key: CString)
    requires Consistent(img) && Removed(img, img', name) && Consistent(img')
    requires Lookup(ViewOf(img).table, key) != -1 && key != Key(name)
    ensures Lookup(ViewOf(img').table, key) != -1
    ensures FileHeaderOf(img', key) == FileHeaderOf(img, key)
    ensures Content(img', FileHeaderOf(img', key)) == Content(img, FileHeaderOf(img, key))
  {
    hide Content, Updated, Header.WellFormed, DecodeTable, StoredBits, DistinctKeys;
    var v, w := ViewOf(img), ViewOf(img');
    RemovedPlaces(v, w, name);
    var k: nat := 2 + Lookup(v.table, key);
    assert v.Live(k) && v.HeaderOk(k);
    assert -1 !in v.Claims(k) by {
      if -1 in v.Claims(k) {
        ClaimsInRange(v, k, -1);
      }
    }
    FramedOwner(img, img', -1, k);
    UntouchedContent(img, img', k);
    RemovedKeepsOthers(v, w, name);
    assert w.HeaderSector(k) == v.HeaderSector(k);
  }

  lemma RemovedImage(img: Image, img': Image, name: CString)
    requires Consistent(img) && Removed(img, img', name)
    ensures Consistent(img')
    ensures Lookup(ViewOf(img).table, Key(name)) != -1 == Lookup(ViewOf(img').table, Key(name))
    ensures forall key: CString :: key != Key(name) ==>
      Lookup(ViewOf(img').table, key) == Lookup(ViewOf(img).table, key)
  {
    hide View.Consistent, Framed, ViewOf, Header.WellFormed, Updated;
    RemovedConsistent(ViewOf(img), ViewOf(img'), name);
    RemovedPlaces(ViewOf(img), ViewOf(img'), name);
  }

  /** A successful Remove takes away exactly the named file and keeps the ownership invariant. */
  lemma RemoveRefines(img: Image, img': Image, name: CString)
    requires Consistent(img) && Removed(img, img', name)
    ensures Consistent(img') && Key(name) in Files(img)
    ensures Files(img') == Files(img) - {Key(name)}
  {
    hide *;
    RemovedImage(img, img', name);
    FilesAt(img, Key(name));
    forall key: CString
      ensures key in Files(img') <==> key in Files(img) && key != Key(name)
      ensures key in Files(img') ==> Files(img')[key] == Files(img)[key]
    {
      FilesAt(img, key);
      FilesAt(img', key);
      if key in Files(img) && key != Key(name) {
        RemovedOldContent(img, img', name, key);
      }
    }
  }

  // ---------------------------------------------------------------- writing

  /** What WriteAt on an open file does to the disk. */
  ghost predicate Written(img: Image, img': Image, key: CString, position: nat, data: seq<byte>)
    requires Consistent(img)
  {
    && Lookup(ViewOf(img).table, key) != -1
    && var h := FileHeaderOf(img, key);
       && (data != [] ==> position + |data| <= h.numBytes)
       && Content(img', h) == Splice(Content(img, h), position, data)
       && OnlyTouched(img, img', h, position, |data|)
  }

  /** Sectors that are not the file's data keep their contents. */
  lemma WrittenFrame(img: Image, img': Image, h: Header, position: nat, n: nat, s: int)
    requires h.WellFormed() && (n > 0 ==> position + n <= h.numBytes) && OnlyTouched(img, img', h, position, n)
    requires 0 <= s < NUM_SECTORS && s !in h.Data()
    ensures img'[s] == img[s]
  {
    if n > 0 {
      SectorSpan(h, position, n);
      var lo := position / SECTOR_SIZE;
      var touched := Touched(h, position, n);
      forall i | 0 <= i < |touched|
        ensures touched[i] in h.Data()
      {
        assert touched[i] == h.dataSectors[lo + i] == h.Data()[lo + i];
      }
    }
  }

  lemma WrittenOther(img: Image, img': Image, key: CString, position: nat, data: seq<byte>, k: nat)
    requires Consistent(img) && Written(img, img', key, position, data)
    requires ViewOf(img).Live(k) && k != 2 + Lookup(ViewOf(img).table, key)
    ensures forall s :: s in ViewOf(img).Claims(k) ==> 0 <= s < NUM_SECTORS && img'[s] == img[s]
  {
    hide OnlyTouched, Content, Header.WellFormed, DecodeTable, StoredBits, DistinctKeys;
    var v := ViewOf(img);
    var file: nat := 2 + Lookup(v.table, key);
    var h := FileHeaderOf(img, key);
    assert v.Live(file) && v.HeaderOk(file) && v.HeaderOk(k);
    assert h == v.headers[v.HeaderSector(file)];
    forall s | s in v.Claims(k)
      ensures 0 <= s < NUM_SECTORS && img'[s] == img[s]
    {
      ClaimsInRange(v, k, s);
      assert s !in v.Claims(file);
      WrittenFrame(img, img', h, position, |data|, s);
    }
  }

  /** A write changes neither the free map, nor the directory, nor any live header. */
  lemma WrittenView(img: Image, img': Image, key: CString, position: nat, data: seq<byte>)
    requires Consistent(img) && Written(img, img', key, position, data)
    ensures SystemFiles(img')
    ensures ViewOf(img').bits == ViewOf(img).bits && ViewOf(img').table == ViewOf(img).table
    ensures forall k: nat :: ViewOf(img).Live(k) ==>
      ViewOf(img').headers[ViewOf(img).HeaderSector(k)] == ViewOf(img).headers[ViewOf(img).HeaderSector(k)]
  {
    hide OnlyTouched, Content, Header.WellFormed, DecodeTable, StoredBits, DistinctKeys;
    var v := ViewOf(img);
    var file: nat := 2 + Lookup(v.table, key);
    assert v.Live(0) && v.Live(1) && v.Live(file) && v.HeaderOk(file);
    WrittenOther(img, img', key, position, data, 0);
    WrittenOther(img, img', key, position, data, 1);
    UntouchedContent(img, img', 0);
    UntouchedContent(img, img', 1);
    forall k: nat | v.Live(k)
      ensures 0 <= v.HeaderSector(k) < NUM_SECTORS
      ensures HeaderAt(img', v.HeaderSector(k)) == HeaderAt(img, v.HeaderSector(k))
    {
      assert v.HeaderOk(k);
      if k == file {
        WrittenFrame(img, img', FileHeaderOf(img, key), position, |data|, v.HeaderSector(k));
      } else {
        WrittenOther(img, img', key, position, data, k);
        UntouchedContent(img, img', k);
      }
    }
  }

  /** The invariant depends only on the free map, the directory and the live headers. */
  lemma SameOwners(v: View, w: View)
    requires v.Consistent() && w.Shaped() && w.bits == v.bits && w.table == v.table
    requires forall k: nat :: v.Live(k) ==> w.headers[v.HeaderSector(k)] == v.headers[v.HeaderSector(k)]
    ensures w.Consistent()
  {
    hide DistinctKeys, Header.WellFormed;
    assert v.Live(0) && v.Live(1);
    assert v.HeaderSector(0) == 0 && v.HeaderSector(1) == 1;
    forall k: nat | w.Live(k)
      ensures v.Live(k) && v.HeaderOk(k) && w.HeaderOk(k) && w.Claims(k) == v.Claims(k)
    {
      assert v.Live(k) && v.HeaderOk(k);
    }
    forall s | w.Marked(s)
      ensures exists k: nat :: w.Live(k) && s in w.Claims(k)
    {
      assert v.Marked(s);
      var k: nat :| v.Live(k) && s in v.Claims(k);
      assert w.Live(k) && s in w.Claims(k);
    }
  }

  lemma WrittenImage(img: Image, img': Image, key: CString, position: nat, data: seq<byte>)
    requires Consistent(img) && Written(img, img', key, position, data)
    ensures Consistent(img') && ViewOf(img').table == ViewOf(img).table
    ensures Lookup(ViewOf(img).table, key) != -1
    ensures data != [] ==> position + |data| <= FileHeaderOf(img, key).numBytes
    ensures Content(img', FileHeaderOf(img, key)) == Splice(Content(img, FileHeaderOf(img, key)), position, data)
  {
    hide View.Consistent, OnlyTouched, Content, Header.WellFormed, ViewOf, FileHeaderOf;
    WrittenView(img, img', key, position, data);
    SameOwners(ViewOf(img), ViewOf(img'));
  }

  lemma WrittenContent(img: Image, img': Image, key: CString, position: nat, data: seq<byte>, other: CString)
    requires Consistent(img) && Written(img, img', key, position, data) && Consistent(img')
    requires ViewOf(img').table == ViewOf(img).table && Lookup(ViewOf(img).table, other) != -1
    ensures FileHeaderOf(img', other) == FileHeaderOf(img, other)
    ensures other != key ==> Content(img', FileHeaderOf(img, other)) == Content(img, FileHeaderOf(img, other))
  {
    hide OnlyTouched, Content, Header.WellFormed, DecodeTable, StoredBits, DistinctKeys;
    var v := ViewOf(img);
    var k: nat := 2 + Lookup(v.table, other);
    assert v.Live(k) && v.HeaderOk(k) && Matches(v.table[k - 2], other);
    WrittenView(img, img', key, position, data);
    assert FileHeaderOf(img', other) == ViewOf(img').headers[v.HeaderSector(k)];
    assert FileHeaderOf(img, other) == v.headers[v.HeaderSector(k)];
    if other != key {
      assert Matches(v.table[Lookup(v.table, key)], key);
      WrittenOther(img, img', key, position, data, k);
      UntouchedContent(img, img', k);
    }
  }

  /** Writing splices the bytes into the named file, leaves every other file alone, and keeps the invariant. */
  lemma WriteRefines(img: Image, img': Image, key: CString, position: nat, data: seq<byte>)
    requires Consistent(img) && Written(img, img', key, position, data)
    ensures Consistent(img') && key in Files(img)
    ensures data != [] ==> position + |data| <= |Files(img)[key]|
    ensures Files(img') == Files(img)[key := Splice(Files(img)[key], position, data)]
  {
    hide *;
    WrittenImage(img, img', key, position, data);
    FilesAt(img, key);
    forall other: CString
      ensures other in Files(img') <==> other in Files(img)
      ensures other in Files(img) && other != key ==> Files(img')[other] == Files(img)[other]
      ensures other == key ==> Files(img')[other] == Splice(Files(img)[key], position, data)
    {
      FilesAt(img, other);
      FilesAt(img', other);
      if other in Files(img) {
        WrittenContent(img, img', key, position, data, other);
      }
    }
  }
}
