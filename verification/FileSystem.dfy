/** filesys/filesys.cc: creating, opening and removing files, all or nothing. */
module FileSystems {
  import opened Words
  import opened Bitmaps
  import opened Disks
  import opened FileHeaders
  import opened OpenFiles
  import opened Directories
  import opened PersistentBitmaps
  import opened FsViews
  import opened FsImages

  // ---------------------------------------------------------------- writing the system files

  /** The two system files are rewritten in full, one after the other. */
  ghost predicate RewroteBoth(img: Image, mid: Image, img': Image, p: Header, q: Header)
    requires p.WellFormed() && p.numBytes > 0 && q.WellFormed() && q.numBytes > 0
  {
    OnlyTouched(img, mid, p, 0, p.numBytes) && OnlyTouched(mid, img', q, 0, q.numBytes)
  }

  lemma RewroteFrame(img: Image, mid: Image, img': Image, p: Header, q: Header)
    requires p.WellFormed() && p.numBytes > 0 && q.WellFormed() && q.numBytes > 0
    requires RewroteBoth(img, mid, img', p, q)
    ensures forall s :: 0 <= s < NUM_SECTORS && s !in p.Data() && s !in q.Data() ==> img'[s] == img[s]
    ensures (forall s :: s in p.Data() ==> s !in q.Data()) ==> Content(img', p) == Content(mid, p)
  {
    forall s | 0 <= s < NUM_SECTORS && s !in p.Data() && s !in q.Data()
      ensures img'[s] == img[s]
    {
      WrittenFrame(img, mid, p, 0, p.numBytes, s);
      WrittenFrame(mid, img', q, 0, q.numBytes, s);
    }
    if forall s :: s in p.Data() ==> s !in q.Data() {
      forall s | s in p.Data()
        ensures mid[s] == img'[s]
      {
        WrittenFrame(mid, img', q, 0, q.numBytes, s);
      }
      ContentFrame(mid, img', p);
    }
  }

  /** The two system files' sectors, and their headers', are apart from each other and from free sectors. */
  lemma SystemApart(v: View)
    requires v.Consistent()
    ensures var p, q := v.headers[0], v.headers[1];
      && p.WellFormed() && q.WellFormed()
      && 0 !in p.Data() && 1 !in p.Data() && 0 !in q.Data() && 1 !in q.Data()
      && (forall s :: s in p.Data() ==> s !in q.Data())
      && (forall s :: 0 <= s < NUM_SECTORS && !v.bits[s] ==> s > 1 && s !in p.Data() && s !in q.Data())
  {
    hide DistinctKeys, Header.WellFormed;
    assert v.Live(0) && v.Live(1) && v.HeaderOk(0) && v.HeaderOk(1);
    var p, q := v.headers[0], v.headers[1];
    assert v.Claims(0) == [0] + p.Data() && v.Claims(1) == [1] + q.Data();
    assert 0 in v.Claims(0) && 1 in v.Claims(1);
    forall s | 0 <= s < NUM_SECTORS && !v.bits[s]
      ensures s > 1 && s !in p.Data() && s !in q.Data()
    {
      assert s !in v.Claims(0) && s !in v.Claims(1);
    }
    forall s | s in p.Data()
      ensures s !in q.Data() && s != 1
    {
      assert s in v.Claims(0) && s !in v.Claims(1);
    }
    assert 0 !in v.Claims(1);
  }

  /** What the two system files' rewriting leaves on the disk; `sector` may have been written before. */
  lemma RewroteViews(img: Image, img1: Image, img2: Image, img3: Image, sector: int, p: Header, q: Header)
    requires Consistent(img) && p == HeaderAt(img, 0) && q == HeaderAt(img, 1)
    requires forall s :: 0 <= s < NUM_SECTORS && s != sector ==> img1[s] == img[s]
    requires 0 <= sector < NUM_SECTORS ==> !ViewOf(img).bits[sector]
    requires RewroteBoth(img1, img2, img3, p, q) || RewroteBoth(img1, img2, img3, q, p)
    ensures RewroteBoth(img1, img2, img3, p, q) ==> Content(img3, p) == Content(img2, p)
    ensures RewroteBoth(img1, img2, img3, q, p) ==> Content(img3, q) == Content(img2, q)
    ensures Framed(img, img3, sector) && SystemFiles(img3)
    ensures HeaderAt(img3, 0) == p && HeaderAt(img3, 1) == q
    ensures 0 <= sector < NUM_SECTORS ==> img3[sector] == img1[sector]
  {
    hide View.Consistent, Header.WellFormed, RewroteBoth, Content, DecodeHeader, StoredBits, DecodeTable;
    var v := ViewOf(img);
    assert v.headers[0] == p && v.headers[1] == q;
    SystemApart(v);
    if RewroteBoth(img1, img2, img3, p, q) {
      RewroteFrame(img1, img2, img3, p, q);
    }
    if RewroteBoth(img1, img2, img3, q, p) {
      RewroteFrame(img1, img2, img3, q, p);
    }
    assert img3[0] == img[0] && img3[1] == img[1];
  }

  lemma FramedHeaders(img: Image, img': Image, sector: int)
    requires Consistent(img) && Framed(img, img', sector) && SystemFiles(img')
    requires 0 <= sector < NUM_SECTORS ==> !ViewOf(img).bits[sector]
    ensures forall k: nat :: ViewOf(img).Live(k) && 0 <= ViewOf(img).HeaderSector(k) < NUM_SECTORS ==>
      ViewOf(img').headers[ViewOf(img).HeaderSector(k)] == ViewOf(img).headers[ViewOf(img).HeaderSector(k)]
  {
    hide View.Consistent, Header.WellFormed, Content, DecodeHeader, StoredBits, DecodeTable, Framed;
    var v := ViewOf(img);
    forall k: nat | v.Live(k) && 0 <= v.HeaderSector(k) < NUM_SECTORS
      ensures img'[v.HeaderSector(k)] == img[v.HeaderSector(k)]
    {
      LiveNotFree(v, k, sector);
      FramedOwner(img, img', sector, k);
    }
  }

  /** The three writes of a successful Create, in the order in which it makes them. */
  lemma CreateWrites(img: Image, img1: Image, img2: Image, img3: Image,
                     name: CString, size: nat, sector: int32, h: Header, bits: seq<bool>, table: seq<DirectoryEntry>)
    requires Consistent(img) && Lookup(ViewOf(img).table, Key(name)) == -1 && FreeSlot(ViewOf(img).table) != -1
    requires sector == FirstClear(ViewOf(img).bits) && sector != -1
    requires h.Shaped() && h.WellFormed() && h.numBytes == size && FirstFit(ViewOf(img).bits[sector := true], h.Data())
    requires Updated(ViewOf(img).bits[sector := true], bits, h.Data(), true)
    requires table == WithEntry(ViewOf(img).table, FreeSlot(ViewOf(img).table), name, sector)
    requires img1 == img[sector := EncodeHeader(h)]
    requires RewroteBoth(img1, img2, img3, HeaderAt(img, 1), HeaderAt(img, 0))
    requires Content(img2, HeaderAt(img, 1)) == EncodeTable(table)
    requires StoredBits(Content(img3, HeaderAt(img, 0)), NUM_SECTORS) == bits
    ensures Created(img, img3, name, size, sector, h)
  {
    hide View.Consistent, Header.WellFormed, FirstFit, Updated, RewroteBoth, Content, EncodeTable, DecodeTable,
      EncodeHeader, DecodeHeader, StoredBits, Framed, WithEntry;
    RewroteViews(img, img1, img2, img3, sector, HeaderAt(img, 0), HeaderAt(img, 1));
    HeaderRoundTrip(h);
    TableRoundTrip(table);
    FramedHeaders(img, img3, sector);
  }

  lemma LiveNotFree(v: View, k: nat, s: int)
    requires v.Consistent() && v.Live(k) && (0 <= s < NUM_SECTORS ==> !v.bits[s])
    ensures s !in v.Claims(k)
  {
    if s in v.Claims(k) {
      assert v.HeaderOk(k);
      ClaimsInRange(v, k, s);
    }
  }

  /** The two writes of Remove. */
  lemma RemoveWrites(img: Image, mid: Image, img': Image, name: CString, bits: seq<bool>, table: seq<DirectoryEntry>)
    requires Consistent(img) && Lookup(ViewOf(img).table, Key(name)) != -1
    requires Updated(ViewOf(img).bits, bits, ViewOf(img).Claims(2 + Lookup(ViewOf(img).table, Key(name))), false)
    requires table == WithoutEntry(ViewOf(img).table, Lookup(ViewOf(img).table, Key(name)))
    requires RewroteBoth(img, mid, img', HeaderAt(img, 0), HeaderAt(img, 1))
    requires StoredBits(Content(mid, HeaderAt(img, 0)), NUM_SECTORS) == bits
    requires Content(img', HeaderAt(img, 1)) == EncodeTable(table)
    ensures Removed(img, img', name)
  {
    hide View.Consistent, Header.WellFormed, Updated, RewroteBoth, Content, EncodeTable, DecodeTable,
      DecodeHeader, StoredBits, Framed, WithoutEntry;
    RewroteViews(img, img, mid, img', -1, HeaderAt(img, 0), HeaderAt(img, 1));
    TableRoundTrip(table);
    FramedHeaders(img, img', -1);
  }

  // ---------------------------------------------------------------- formatting

  /** With sectors 0 and 1 marked, the free map file gets sector 2 and the directory sectors 3 and 4. */
  lemma FormatSectors(b2: seq<bool>, b3: seq<bool>, b4: seq<bool>, m: Header, d: Header)
    requires |b2| == NUM_SECTORS && forall s :: 0 <= s < NUM_SECTORS ==> b2[s] == (s < 2)
    requires m.WellFormed() && m.numBytes == FREE_MAP_FILE_SIZE
    requires FirstFit(b2, m.Data()) && Updated(b2, b3, m.Data(), true)
    requires d.WellFormed() && d.numBytes == DIRECTORY_FILE_SIZE
    requires FirstFit(b3, d.Data()) && Updated(b3, b4, d.Data(), true)
    ensures m.Data() == [2] && d.Data() == [3, 4]
    ensures |b4| == NUM_SECTORS && forall s :: 0 <= s < NUM_SECTORS ==> b4[s] == (s < 5)
  {
    assert |m.Data()| == 1 && |d.Data()| == 2;
    assert !b2[2] && !b2[m.Data()[0]];
    assert m.Data()[0] == 2;
    assert b3[2] && !b3[3] && !b3[4];
    assert 3 !in d.Data()[..0];
    assert d.Data()[0] == 3;
    assert d.Data()[..1] == [3];
    assert 4 !in d.Data()[..1];
  }

  /** A freshly formatted disk. */
  ghost predicate FreshView(v: View) {
    && v.Shaped()
    && (forall s :: 0 <= s < NUM_SECTORS ==> v.bits[s] == (s < 5))
    && (forall i :: 0 <= i < NUM_DIR_ENTRIES ==> !v.table[i].inUse)
    && v.headers[0].WellFormed() && v.headers[0].numBytes == FREE_MAP_FILE_SIZE && v.headers[0].Data() == [2]
    && v.headers[1].WellFormed() && v.headers[1].numBytes == DIRECTORY_FILE_SIZE && v.headers[1].Data() == [3, 4]
  }

  lemma FreshConsistent(v: View)
    requires FreshView(v)
    ensures v.Consistent()
    ensures forall key: CString :: Lookup(v.table, key) == -1
  {
    hide Header.WellFormed;
    assert v.Claims(0) == [0, 2] && v.Claims(1) == [1, 3, 4];
    forall k: nat | v.Live(k)
      ensures k < 2 && v.HeaderOk(k)
    {
    }
    forall s | v.Marked(s)
      ensures exists k: nat :: v.Live(k) && s in v.Claims(k)
    {
      var k := if s in v.Claims(0) then 0 else 1;
      assert v.Live(k) && s in v.Claims(k);
    }
  }

  /** The writes of formatting: the two headers, then the two files. */
  lemma FormatWrites(img0: Image, img: Image, mid: Image, img': Image, m: Header, d: Header,
                     bits: seq<bool>, table: seq<DirectoryEntry>)
    requires m.Shaped() && m.WellFormed() && m.numBytes == FREE_MAP_FILE_SIZE && m.Data() == [2]
    requires d.Shaped() && d.WellFormed() && d.numBytes == DIRECTORY_FILE_SIZE && d.Data() == [3, 4]
    requires img == img0[FREE_MAP_SECTOR := EncodeHeader(m)][DIRECTORY_SECTOR := EncodeHeader(d)]
    requires RewroteBoth(img, mid, img', m, d)
    requires StoredBits(Content(mid, m), NUM_SECTORS) == bits && Content(img', d) == EncodeTable(table)
    requires |bits| == NUM_SECTORS && forall s :: 0 <= s < NUM_SECTORS ==> bits[s] == (s < 5)
    requires |table| == NUM_DIR_ENTRIES && forall i :: 0 <= i < NUM_DIR_ENTRIES ==> !table[i].inUse
    ensures HeaderAt(img, 0) == m && HeaderAt(img, 1) == d && HeaderAt(img', 0) == m && HeaderAt(img', 1) == d
    ensures Consistent(img') && Files(img') == map[]
    ensures FreshView(ViewOf(img'))
  {
    hide View.Consistent, Header.WellFormed, RewroteBoth, Content, EncodeTable, DecodeTable,
      EncodeHeader, DecodeHeader, StoredBits, Files;
    RewroteFrame(img, mid, img', m, d);
    HeaderRoundTrip(m);
    HeaderRoundTrip(d);
    TableRoundTrip(table);
    assert img'[0] == img[0] && img'[1] == img[1];
    FreshConsistent(ViewOf(img'));
    forall key: CString
      ensures key !in Files(img')
    {
      FilesAt(img', key);
    }
  }

  class FileSystem {
    const disk: SynchDisk
    const freeMapFile: OpenFile
    const directoryFile: OpenFile

    /** The two system files are kept open, and the disk is consistent. */
    ghost predicate Valid()
      reads this, disk, freeMapFile, freeMapFile.hdr, directoryFile, directoryFile.hdr
    {
      && freeMapFile.disk == disk && directoryFile.disk == disk
      && Consistent(disk.image)
      && freeMapFile.hdr.View() == HeaderAt(disk.image, FREE_MAP_SECTOR)
      && directoryFile.hdr.View() == HeaderAt(disk.image, DIRECTORY_SECTOR)
    }

    /** Formats the disk, or takes it as it is. */
    constructor (disk: SynchDisk, format: bool)
      requires !format ==> Consistent(disk.image)
      modifies disk
      ensures Valid() && this.disk == disk
      ensures fresh(freeMapFile) && fresh(freeMapFile.hdr) && fresh(directoryFile) && fresh(directoryFile.hdr)
      ensures !format ==> disk.image == old(disk.image)
      ensures format ==> FreshView(ViewOf(disk.image)) && Files(disk.image) == map[]
    {
      this.disk := disk;
      if format {
        var mapFile, dirFile := Format(disk);
        freeMapFile, directoryFile := mapFile, dirFile;
      } else {
        assert HeaderAt(disk.image, 0).WellFormed() && HeaderAt(disk.image, 1).WellFormed();
        freeMapFile := new OpenFile(disk, FREE_MAP_SECTOR);
        directoryFile := new OpenFile(disk, DIRECTORY_SECTOR);
      }
    }

    /** The formatting branch of the constructor. */
    static method Format(disk: SynchDisk) returns (mapFile: OpenFile, dirFile: OpenFile)
      modifies disk
      ensures Consistent(disk.image) && FreshView(ViewOf(disk.image)) && Files(disk.image) == map[]
      ensures fresh(mapFile) && fresh(mapFile.hdr) && fresh(dirFile) && fresh(dirFile.hdr)
      ensures mapFile.disk == disk && mapFile.hdr.View() == HeaderAt(disk.image, FREE_MAP_SECTOR)
      ensures dirFile.disk == disk && dirFile.hdr.View() == HeaderAt(disk.image, DIRECTORY_SECTOR)
    {
      var freeMap := new Bitmap(NUM_SECTORS);
      var directory := new Directory(NUM_DIR_ENTRIES, DirectoryEntry(false, 0, seq(10, i => 0)));
      var mapHdr, dirHdr := MakeHeaders(freeMap);
      mapFile, dirFile := FlushFormat(disk, freeMap, directory, mapHdr, dirHdr);
    }

    /** Flushes the headers, opens the two files, and writes the initial version of each. */
    static method FlushFormat(
      disk: SynchDisk, freeMap: Bitmap, directory: Directory, mapHdr: FileHeader, dirHdr: FileHeader)
      returns (mapFile: OpenFile, dirFile: OpenFile)
      requires freeMap.Valid() && freeMap.numBits == NUM_SECTORS && directory.table.Length == NUM_DIR_ENTRIES
      requires forall s :: 0 <= s < NUM_SECTORS ==> freeMap.Bits()[s] == (s < 5)
      requires forall i :: 0 <= i < NUM_DIR_ENTRIES ==> !directory.table[i].inUse
      requires var m := mapHdr.View();
        m.Shaped() && m.WellFormed() && m.numBytes == FREE_MAP_FILE_SIZE && m.Data() == [2]
      requires var d := dirHdr.View();
        d.Shaped() && d.WellFormed() && d.numBytes == DIRECTORY_FILE_SIZE && d.Data() == [3, 4]
      modifies disk
      ensures Consistent(disk.image) && FreshView(ViewOf(disk.image)) && Files(disk.image) == map[]
      ensures fresh(mapFile) && fresh(mapFile.hdr) && fresh(dirFile) && fresh(dirFile.hdr)
      ensures mapFile.disk == disk && mapFile.hdr.View() == HeaderAt(disk.image, FREE_MAP_SECTOR)
      ensures dirFile.disk == disk && dirFile.hdr.View() == HeaderAt(disk.image, DIRECTORY_SECTOR)
    {
      hide View.Consistent, Header.WellFormed, Content, EncodeTable, DecodeTable, Consistent, FreshView,
        EncodeHeader, DecodeHeader, StoredBits, BitsOf, OnlyTouched, Header.Data, ViewOf, Files;
      ghost var img0 := disk.image;
      mapHdr.WriteBack(disk, FREE_MAP_SECTOR);
      dirHdr.WriteBack(disk, DIRECTORY_SECTOR);
      ghost var img := disk.image;
      HeaderRoundTrip(mapHdr.View());
      HeaderRoundTrip(dirHdr.View());
      mapFile := new OpenFile(disk, FREE_MAP_SECTOR);
      dirFile := new OpenFile(disk, DIRECTORY_SECTOR);
      WriteBack(freeMap, mapFile);
      ghost var mid := disk.image;
      directory.WriteBack(dirFile);
      FormatWrites(img0, img, mid, disk.image, mapHdr.View(), dirHdr.View(), freeMap.Bits(), directory.table[..]);
    }

    /** Reserves the header sectors and allocates the two system files. */
    static method MakeHeaders(freeMap: Bitmap) returns (mapHdr: FileHeader, dirHdr: FileHeader)
      requires freeMap.Valid() && freeMap.numBits == NUM_SECTORS
      requires forall i :: 0 <= i < NUM_SECTORS ==> !freeMap.Bits()[i]
      modifies freeMap.words
      ensures fresh(mapHdr) && fresh(dirHdr) && mapHdr != dirHdr
      ensures forall s :: 0 <= s < NUM_SECTORS ==> freeMap.Bits()[s] == (s < 5)
      ensures var m := mapHdr.View();
        m.Shaped() && m.WellFormed() && m.numBytes == FREE_MAP_FILE_SIZE && m.Data() == [2]
      ensures var d := dirHdr.View();
        d.Shaped() && d.WellFormed() && d.numBytes == DIRECTORY_FILE_SIZE && d.Data() == [3, 4]
    {
      hide FirstFit, Updated, CountClear, BitsOf;
      ghost var b0 := freeMap.Bits();
      AllClear(b0);
      freeMap.Mark(FREE_MAP_SECTOR);
      CountClearUpdate(b0, 0, true);
      ghost var b1 := freeMap.Bits();
      freeMap.Mark(DIRECTORY_SECTOR);
      CountClearUpdate(b1, 1, true);
      ghost var b2 := freeMap.Bits();
      mapHdr := new FileHeader(0, 0, seq(NUM_DIRECT, i => 0));
      dirHdr := new FileHeader(0, 0, seq(NUM_DIRECT, i => 0));
      var ok := mapHdr.Allocate(freeMap, FREE_MAP_FILE_SIZE);
      assert ok; // the source's ASSERT
      ghost var b3 := freeMap.Bits();
      FirstFitTaken(b2, b3, mapHdr.View().Data());
      ok := dirHdr.Allocate(freeMap, DIRECTORY_FILE_SIZE);
      assert ok; // the source's ASSERT
      FormatSectors(b2, b3, freeMap.Bits(), mapHdr.View(), dirHdr.View());
    }

    /** Opens the named file, if there is one. */
    method Open(name: CString) returns (file: OpenFile?)
      requires Valid()
      ensures file != null <==> Key(name) in Files(disk.image)
      ensures file != null ==> fresh(file) && fresh(file.hdr) && file.disk == disk && file.seekPosition == 0
      ensures file != null ==> file.hdr.View() == FileHeaderOf(disk.image, Key(name))
      ensures file != null ==> file.Valid() && file.Bytes() == Files(disk.image)[Key(name)]
    {
      hide View.Consistent, Header.WellFormed, Content, DecodeTable, DecodeHeader, StoredBits;
      ghost var v := ViewOf(disk.image);
      var directory := new Directory(NUM_DIR_ENTRIES, DirectoryEntry(false, 0, seq(10, i => 0)));
      directory.FetchFrom(directoryFile);
      var sector := directory.Find(name);
      FilesAt(disk.image, Key(name));
      if Lookup(v.table, Key(name)) != -1 {
        FoundSector(v, name);
      }
      if sector >= 0 {
        FoundHeader(disk.image, name);
        file := new OpenFile(disk, sector);
      } else {
        file := null;
      }
    }

    /** Removes the named file; false, and nothing changed, exactly when there is none. */
    method Remove(name: CString) returns (success: bool)
      requires Valid()
      modifies disk
      ensures Valid()
      ensures success == (Key(name) in old(Files(disk.image)))
      ensures !success ==> disk.image == old(disk.image)
      ensures success ==> Removed(old(disk.image), disk.image, name)
      ensures Files(disk.image) == old(Files(disk.image)) - {Key(name)}
    {
      hide View.Consistent, Header.WellFormed, Updated, Content, EncodeTable, DecodeTable,
        DecodeHeader, StoredBits, WithoutEntry, OnlyTouched, Removed, Files;
      ghost var img := disk.image;
      ghost var v := ViewOf(img);
      var directory := new Directory(NUM_DIR_ENTRIES, DirectoryEntry(false, 0, seq(10, i => 0)));
      directory.FetchFrom(directoryFile);
      var sector := directory.Find(name);
      FilesAt(img, Key(name));
      if Lookup(v.table, Key(name)) != -1 {
        FoundSector(v, name);
      }
      if sector == -1 {
        return false;
      }
      FoundHeader(img, name);
      var freeMap := Release(name, sector);
      var _ := directory.Remove(name);
      FlushRemoved(name, directory, freeMap);
      success := true;
    }

    /** Fetches the free map and clears the data sectors and the header sector of the file in it. */
    method Release(name: CString, sector: nat) returns (freeMap: Bitmap)
      requires Valid() && Lookup(ViewOf(disk.image).table, Key(name)) != -1
      requires sector == ViewOf(disk.image).table[Lookup(ViewOf(disk.image).table, Key(name))].sector
      ensures fresh(freeMap) && fresh(freeMap.words) && freeMap.Valid() && freeMap.numBits == NUM_SECTORS
      ensures Updated(ViewOf(disk.image).bits, freeMap.Bits(),
                      ViewOf(disk.image).Claims(2 + Lookup(ViewOf(disk.image).table, Key(name))), false)
    {
      hide View.Consistent, Header.WellFormed, Updated, Content, DecodeTable, DecodeHeader, StoredBits, BitsOf;
      ghost var v := ViewOf(disk.image);
      FoundHeader(disk.image, name);
      var fileHdr := new FileHeader(0, 0, seq(NUM_DIRECT, i => 0));
      fileHdr.FetchFrom(disk, sector);
      freeMap := FetchFrom(freeMapFile, NUM_SECTORS);
      assert freeMap.Bits() == v.bits;
      fileHdr.Deallocate(freeMap);
      ghost var b1 := freeMap.Bits();
      freeMap.Clear(sector);
      ReleasedClaims(v, name, b1, freeMap.Bits());
    }

    method FlushRemoved(name: CString, directory: Directory, freeMap: Bitmap)
      requires Valid() && freeMap.Valid() && freeMap.numBits == NUM_SECTORS
      requires Lookup(ViewOf(disk.image).table, Key(name)) != -1
      requires Updated(ViewOf(disk.image).bits, freeMap.Bits(),
                       ViewOf(disk.image).Claims(2 + Lookup(ViewOf(disk.image).table, Key(name))), false)
      requires directory.table.Length == NUM_DIR_ENTRIES
      requires var table := ViewOf(disk.image).table;
        directory.table[..] == WithoutEntry(table, Lookup(table, Key(name)))
      modifies disk
      ensures Valid() && Removed(old(disk.image), disk.image, name)
      ensures Files(disk.image) == old(Files(disk.image)) - {Key(name)}
    {
      hide View.Consistent, Header.WellFormed, Updated, Content, EncodeTable, DecodeTable, BitsOf,
        DecodeHeader, StoredBits, WithoutEntry, OnlyTouched, Removed, ViewOf, Files;
      ghost var img := disk.image;
      WriteBack(freeMap, freeMapFile);
      ghost var mid := disk.image;
      directory.WriteBack(directoryFile);
      RemoveWrites(img, mid, disk.image, name, freeMap.Bits(), directory.table[..]);
      RemoveRefines(img, disk.image, name);
      RemovedSystemHeaders(img, disk.image, name);
    }

    /** Creates a file, or reports that it cannot; then nothing on the disk has changed. */
    method Create(name: CString, initialSize: nat) returns (success: bool)
      requires Valid() && initialSize < TWO_31
      requires initialSize > MAX_FILE_SIZE ==> !CanCreate(ViewOf(disk.image), name, initialSize)
      modifies disk
      ensures Valid()
      ensures success == CanCreate(old(ViewOf(disk.image)), name, initialSize)
      ensures !success ==> disk.image == old(disk.image)
      ensures success ==> exists sector, h :: Created(old(disk.image), disk.image, name, initialSize, sector, h)
      ensures success ==> AddsFile(old(Files(disk.image)), Files(disk.image), Key(name), initialSize)
    {
      hide View.Consistent, Header.WellFormed, FirstFit, Updated, Content, EncodeTable, DecodeTable,
        EncodeHeader, DecodeHeader, StoredBits, WithEntry, CountClear, OnlyTouched, Created, Files;
      ghost var img := disk.image;
      ghost var v := ViewOf(img);
      var directory := new Directory(NUM_DIR_ENTRIES, DirectoryEntry(false, 0, seq(10, i => 0)));
      directory.FetchFrom(directoryFile);
      var found := directory.Find(name);
      if Lookup(v.table, Key(name)) != -1 {
        FoundSector(v, name);
      }
      if found != -1 {
        return false;
      }
      var freeMap := FetchFrom(freeMapFile, NUM_SECTORS);
      assert freeMap.Bits() == v.bits;
      CountClearPositive(v.bits);
      var sector := freeMap.FindAndSet();
      if sector == -1 {
        return false;
      }
      CountClearUpdate(v.bits, sector, true);
      var added := directory.Add(name, sector);
      if !added {
        return false;
      }
      var hdr := new FileHeader(0, 0, seq(NUM_DIRECT, i => 0));
      success := hdr.Allocate(freeMap, initialSize);
      if success {
        FlushCreated(name, sector, hdr, directory, freeMap);
        assert Created(img, disk.image, name, initialSize, sector, hdr.View());
      }
    }

    /** Everything worked: stores the new header and flushes the directory and the free map. */
    method FlushCreated(name: CString, sector: int32, hdr: FileHeader, directory: Directory, freeMap: Bitmap)
      requires Valid() && freeMap.Valid() && freeMap.numBits == NUM_SECTORS
      requires Lookup(ViewOf(disk.image).table, Key(name)) == -1 && FreeSlot(ViewOf(disk.image).table) != -1
      requires sector == FirstClear(ViewOf(disk.image).bits) && sector != -1
      requires hdr.View().Shaped() && hdr.View().WellFormed() && hdr.numBytes >= 0
      requires FirstFit(ViewOf(disk.image).bits[sector := true], hdr.View().Data())
      requires Updated(ViewOf(disk.image).bits[sector := true], freeMap.Bits(), hdr.View().Data(), true)
      requires directory.table.Length == NUM_DIR_ENTRIES
      requires var table := ViewOf(disk.image).table;
        directory.table[..] == WithEntry(table, FreeSlot(table), name, sector)
      modifies disk
      ensures Valid() && Created(old(disk.image), disk.image, name, hdr.numBytes, sector, hdr.View())
      ensures AddsFile(old(Files(disk.image)), Files(disk.image), Key(name), hdr.numBytes)
    {
      hide View.Consistent, Header.WellFormed, FirstFit, Updated, Content, EncodeTable, DecodeTable, BitsOf,
        EncodeHeader, DecodeHeader, StoredBits, WithEntry, OnlyTouched, Created, ViewOf, Files;
      ghost var img := disk.image;
      hdr.WriteBack(disk, sector);
      ghost var img1 := disk.image;
      directory.WriteBack(directoryFile);
      ghost var img2 := disk.image;
      WriteBack(freeMap, freeMapFile);
      CreateWrites(img, img1, img2, disk.image, name, hdr.numBytes, sector, hdr.View(), freeMap.Bits(),
        directory.table[..]);
      CreateRefines(img, disk.image, name, hdr.numBytes, sector, hdr.View());
      CreatedSystemHeaders(img, disk.image, name, hdr.numBytes, sector, hdr.View());
    }
  }

  lemma CreatedSystemHeaders(img: Image, img': Image, name: CString, size: nat, sector: int32, h: Header)
    requires Consistent(img) && Created(img, img', name, size, sector, h)
    ensures HeaderAt(img', 0) == HeaderAt(img, 0) && HeaderAt(img', 1) == HeaderAt(img, 1)
  {
    hide View.Consistent, Header.WellFormed, FirstFit, Updated, Content, DecodeTable, DecodeHeader, StoredBits, Framed;
    var v, w := ViewOf(img), ViewOf(img');
    assert v.Live(0) && v.Live(1) && v.HeaderSector(0) == 0 && v.HeaderSector(1) == 1;
    assert w.headers[0] == HeaderAt(img', 0) && w.headers[1] == HeaderAt(img', 1);
  }

  lemma RemovedSystemHeaders(img: Image, img': Image, name: CString)
    requires Consistent(img) && Removed(img, img', name)
    ensures HeaderAt(img', 0) == HeaderAt(img, 0) && HeaderAt(img', 1) == HeaderAt(img, 1)
  {
    hide View.Consistent, Header.WellFormed, Updated, Content, DecodeTable, DecodeHeader, StoredBits, Framed;
    var v, w := ViewOf(img), ViewOf(img');
    assert v.Live(0) && v.Live(1) && v.HeaderSector(0) == 0 && v.HeaderSector(1) == 1;
    assert w.headers[0] == HeaderAt(img', 0) && w.headers[1] == HeaderAt(img', 1);
  }

  /** A name that is found has a well-formed header whose sectors are all marked. */
  lemma FoundHeader(img: Image, name: CString)
    requires Consistent(img) && Lookup(ViewOf(img).table, Key(name)) != -1
    ensures var s := ViewOf(img).table[Lookup(ViewOf(img).table, Key(name))].sector;
      && 0 <= s < NUM_SECTORS && HeaderAt(img, s).WellFormed() && HeaderAt(img, s) == FileHeaderOf(img, Key(name))
      && (forall d :: d in HeaderAt(img, s).Data() ==> 0 <= d < NUM_SECTORS && ViewOf(img).bits[d])
  {
    hide DistinctKeys, DecodeTable, StoredBits, Content, Header.WellFormed;
    var v := ViewOf(img);
    var k: nat := 2 + Lookup(v.table, Key(name));
    assert v.Live(k) && v.HeaderOk(k);
    var h := v.headers[v.HeaderSector(k)];
    assert h == HeaderAt(img, v.HeaderSector(k));
    forall d | d in h.Data()
      ensures 0 <= d < NUM_SECTORS && v.bits[d]
    {
      assert d in v.Claims(k);
      ClaimsInRange(v, k, d);
    }
  }

  /** Clearing the data sectors and then the header's sector releases everything the file claims. */
  lemma ReleasedClaims(v: View, name: CString, b1: seq<bool>, b2: seq<bool>)
    requires v.Consistent() && Lookup(v.table, Key(name)) != -1
    requires var s := v.table[Lookup(v.table, Key(name))].sector;
      0 <= s < NUM_SECTORS && Updated(v.bits, b1, v.headers[s].Data(), false) && b2 == b1[s := false]
    ensures Updated(v.bits, b2, v.Claims(2 + Lookup(v.table, Key(name))), false)
  {
  }

  lemma FoundSector(v: View, name: CString)
    requires v.Consistent() && Lookup(v.table, Key(name)) != -1
    ensures v.table[Lookup(v.table, Key(name))].sector >= 0
  {
    var k: nat := 2 + Lookup(v.table, Key(name));
    assert v.Live(k) && v.HeaderOk(k);
  }
}
