/** filesys/filehdr.cc: the header of a file, which says how long the file is and which sectors hold it. */
module FileHeaders {
  import opened Words
  import opened Bitmaps
  import opened Disks

  const NUM_DIRECT := 30 // (SectorSize - 2 * sizeof(int)) / sizeof(int)
  const MAX_FILE_SIZE := 3840 // NumDirect * SectorSize

  /** The contents of a header, in memory or on disk. */
  datatype Header = Header(numBytes: int32, numSectors: int32, dataSectors: seq<int32>) {

    predicate Shaped() {
      |dataSectors| == NUM_DIRECT
    }

    /** The sectors the header claims. */
    function Data(): (s: seq<int32>) {
      if 0 <= numSectors <= |dataSectors| then dataSectors[..numSectors] else []
    }

    /** What Allocate establishes: enough distinct sectors of the disk for the length. */
    ghost predicate WellFormed() {
      && Shaped()
      && 0 <= numBytes <= MAX_FILE_SIZE
      && numSectors == DivRoundUp(numBytes, SECTOR_SIZE)
      && (forall i :: 0 <= i < numSectors ==> 0 <= dataSectors[i] < NUM_SECTORS)
      && (forall i, j :: 0 <= i < j < numSectors ==> dataSectors[i] != dataSectors[j])
    }
  }

  /** The bytes of a file: those of its sectors, in order, up to its length. */
  ghost function Content(image: Image, h: Header): (bytes: seq<byte>)
    requires h.WellFormed()
    ensures |bytes| == h.numBytes
  {
    seq(h.numBytes, i requires 0 <= i < h.numBytes => image[h.dataSectors[i / 128]][i % 128])
  }

  /** A file is where its sectors are: nothing else on the disk matters to it. */
  lemma ContentFrame(before: Image, after: Image, h: Header)
    requires h.WellFormed()
    requires forall s :: s in h.Data() ==> before[s] == after[s]
    ensures Content(before, h) == Content(after, h)
  {
    forall i | 0 <= i < h.numBytes
      ensures before[h.dataSectors[i / 128]] == after[h.dataSectors[i / 128]]
    {
      assert h.dataSectors[i / 128] == h.Data()[i / 128];
    }
  }

  function HeaderWords(h: Header): (ws: seq<uint32>)
    requires h.Shaped()
    ensures |ws| == 32
  {
    [ToUnsigned(h.numBytes), ToUnsigned(h.numSectors)]
    + seq(NUM_DIRECT, i requires 0 <= i < NUM_DIRECT => ToUnsigned(h.dataSectors[i]))
  }

  /** A header fills exactly one sector. */
  function EncodeHeader(h: Header): (s: Sector)
    requires h.Shaped()
  {
    EncodeWords(HeaderWords(h))
  }

  function DecodeHeader(s: Sector): (h: Header)
    ensures h.Shaped()
  {
    var ws := DecodeWords(s, 32);
    Header(ToSigned(ws[0]), ToSigned(ws[1]),
           seq(NUM_DIRECT, i requires 0 <= i < NUM_DIRECT => ToSigned(ws[i + 2])))
  }

  lemma HeaderRoundTrip(h: Header)
    requires h.Shaped()
    ensures DecodeHeader(EncodeHeader(h)) == h
  {
    hide EncodeWords, DecodeWords, ToSigned, ToUnsigned;
    var ws := HeaderWords(h);
    WordsRoundTrip(ws, []);
    assert EncodeWords(ws) + [] == EncodeWords(ws);
    var d := DecodeHeader(EncodeHeader(h));
    SignedRoundTrip(h.numBytes);
    SignedRoundTrip(h.numSectors);
    forall i | 0 <= i < NUM_DIRECT
      ensures d.dataSectors[i] == h.dataSectors[i]
    {
      SignedRoundTrip(h.dataSectors[i]);
    }
  }

  /** `bits` with every sector of `sectors` marked (or cleared). */
  ghost predicate Updated(before: seq<bool>, after: seq<bool>, sectors: seq<int>, b: bool) {
    && |after| == |before|
    && forall k :: 0 <= k < |before| ==> after[k] == if k in sectors then b else before[k]
  }

  /** Sectors that were free, taken lowest first. */
  ghost predicate FirstFit(before: seq<bool>, sectors: seq<int>) {
    && (forall i :: 0 <= i < |sectors| ==> 0 <= sectors[i] < |before| && !before[sectors[i]])
    && (forall i, j :: 0 <= i < j < |sectors| ==> sectors[i] < sectors[j])
    && (forall i, k :: 0 <= i < |sectors| && 0 <= k < sectors[i] && !before[k] ==> k in sectors[..i])
  }

  /** Taking the first clear bit once more. */
  lemma FirstFitStep(was: seq<bool>, now: seq<bool>, taken: seq<int>, k: int)
    requires FirstFit(was, taken) && Updated(was, now, taken, true)
    requires k == FirstClear(now) && k >= 0
    ensures FirstFit(was, taken + [k]) && Updated(was, now[k := true], taken + [k], true)
  {
    var more := taken + [k];
    assert k !in taken;
    forall i | 0 <= i < |taken|
      ensures taken[i] < k
    {
      assert taken[i] in taken;
      assert k !in taken[..i];
    }
    forall i, j | 0 <= i < |more| && 0 <= j < more[i] && !was[j]
      ensures j in more[..i]
    {
      assert more[..i] == taken[..i];
      if i == |taken| {
        assert taken[..i] == taken;
        assert now[j];
      }
    }
  }

  lemma FirstFitNone(bits: seq<bool>)
    ensures FirstFit(bits, []) && Updated(bits, bits, [], true)
  {
  }

  lemma FirstFitHeader(bits: seq<bool>, h: Header)
    requires |bits| == NUM_SECTORS && h.Shaped() && FirstFit(bits, h.Data())
    requires 0 <= h.numBytes <= MAX_FILE_SIZE && h.numSectors == DivRoundUp(h.numBytes, SECTOR_SIZE)
    ensures h.WellFormed()
  {
    assert h.Data() == h.dataSectors[..h.numSectors];
  }

  /** Distinct positions of `bits`, all clear. */
  ghost predicate DistinctClear(bits: seq<bool>, sectors: seq<int>) {
    && (forall i :: 0 <= i < |sectors| ==> 0 <= sectors[i] < |bits| && !bits[sectors[i]])
    && (forall i, j :: 0 <= i < j < |sectors| ==> sectors[i] != sectors[j])
  }

  /** Marking distinct clear sectors lowers the number of clear ones by as many. */
  lemma {:induction false} TakenCount(before: seq<bool>, after: seq<bool>, sectors: seq<int>)
    requires DistinctClear(before, sectors) && Updated(before, after, sectors, true)
    ensures CountClear(after) == CountClear(before) - |sectors|
    decreases |sectors|
  {
    if sectors == [] {
      assert before == after;
    } else {
      var n := |sectors| - 1;
      var less, k := sectors[..n], sectors[n];
      var mid := after[k := false];
      assert k !in less;
      assert forall s :: s in sectors <==> s in less || s == k by {
        assert sectors == less + [k];
      }
      TakenCount(before, mid, less);
      CountClearUpdate(after, k, false);
    }
  }

  lemma FirstFitTaken(before: seq<bool>, after: seq<bool>, sectors: seq<int>)
    requires FirstFit(before, sectors) && Updated(before, after, sectors, true)
    ensures CountClear(after) == CountClear(before) - |sectors|
  {
    TakenCount(before, after, sectors);
  }

  class FileHeader {
    var numBytes: int32
    var numSectors: int32
    var dataSectors: seq<int32>

    ghost function View(): (h: Header)
      reads this
    {
      Header(numBytes, numSectors, dataSectors)
    }

    /** The fields of a new header are whatever the allocator left there. */
    constructor (numBytes: int32, numSectors: int32, dataSectors: seq<int32>)
      requires |dataSectors| == NUM_DIRECT
      ensures View() == Header(numBytes, numSectors, dataSectors)
    {
      this.numBytes, this.numSectors, this.dataSectors := numBytes, numSectors, dataSectors;
    }

    /** Takes sectors for a file of `fileSize` bytes from the free map, or reports that there are too few. A size
        above MAX_FILE_SIZE that there is room for would overrun the header's table. */
    method Allocate(freeMap: Bitmap, fileSize: nat) returns (ok: bool)
      requires View().Shaped() && freeMap.Valid() && freeMap.numBits == NUM_SECTORS
      requires fileSize < TWO_31
      requires fileSize <= MAX_FILE_SIZE || CountClear(freeMap.Bits()) < DivRoundUp(fileSize, SECTOR_SIZE)
      modifies this, freeMap.words
      ensures ok == (DivRoundUp(fileSize, SECTOR_SIZE) <= CountClear(old(freeMap.Bits())))
      ensures !ok ==> freeMap.Bits() == old(freeMap.Bits())
      ensures View().Shaped()
      ensures ok ==> View().WellFormed() && numBytes == fileSize
      ensures ok ==> FirstFit(old(freeMap.Bits()), View().Data())
      ensures ok ==> Updated(old(freeMap.Bits()), freeMap.Bits(), View().Data(), true)
    {
      hide BitsOf, FirstFit, Updated, CountClear;
      numBytes := fileSize;
      numSectors := DivRoundUp(fileSize, SECTOR_SIZE);
      var free := freeMap.NumClear();
      if free < numSectors {
        return false;
      }
      ghost var was := freeMap.Bits();
      FirstFitNone(was);
      assert dataSectors[..0] == [];
      for i := 0 to numSectors
        invariant View().Shaped() && numBytes == fileSize && numSectors == DivRoundUp(fileSize, SECTOR_SIZE)
        invariant FirstFit(was, dataSectors[..i])
        invariant Updated(was, freeMap.Bits(), dataSectors[..i], true)
        invariant CountClear(freeMap.Bits()) >= numSectors - i
      {
        ghost var bits := freeMap.Bits();
        ghost var taken := dataSectors[..i];
        CountClearPositive(bits);
        var k := freeMap.FindAndSet();
        CountClearUpdate(bits, k, true);
        dataSectors := dataSectors[i := k];
        assert dataSectors[..i + 1] == taken + [k];
        FirstFitStep(was, bits, taken, k);
      }
      assert View().Data() == dataSectors[..numSectors];
      FirstFitHeader(was, View());
      ok := true;
    }

    /** Returns the file's sectors to the free map; each of them must be marked there. */
    method Deallocate(freeMap: Bitmap)
      requires View().WellFormed() && freeMap.Valid() && freeMap.numBits == NUM_SECTORS
      requires forall s :: s in View().Data() ==> freeMap.Bits()[s]
      modifies freeMap.words
      ensures Updated(old(freeMap.Bits()), freeMap.Bits(), View().Data(), false)
    {
      ghost var was := freeMap.Bits();
      for i := 0 to numSectors
        invariant Updated(was, freeMap.Bits(), dataSectors[..i], false)
      {
        assert dataSectors[i] == View().Data()[i];
        var marked := freeMap.Test(dataSectors[i]);
        assert marked; // the source's ASSERT
        freeMap.Clear(dataSectors[i]);
        assert dataSectors[..i + 1] == dataSectors[..i] + [dataSectors[i]];
      }
    }

    method FetchFrom(disk: SynchDisk, sector: nat)
      requires sector < NUM_SECTORS
      modifies this
      ensures View() == DecodeHeader(disk.image[sector])
    {
      var buf := new byte[SECTOR_SIZE];
      disk.ReadSector(sector, buf, 0);
      assert buf[..] == disk.image[sector];
      var h := DecodeHeader(buf[..]);
      numBytes, numSectors, dataSectors := h.numBytes, h.numSectors, h.dataSectors;
    }

    method WriteBack(disk: SynchDisk, sector: nat)
      requires sector < NUM_SECTORS && View().Shaped()
      modifies disk
      ensures disk.image == old(disk.image)[sector := EncodeHeader(View())]
    {
      disk.WriteSector(sector, EncodeHeader(Header(numBytes, numSectors, dataSectors)));
    }

    /** The sector that holds the byte at `offset`. */
    method ByteToSector(offset: nat) returns (sector: nat)
      requires View().WellFormed() && offset < numSectors * SECTOR_SIZE
      ensures sector == dataSectors[offset / SECTOR_SIZE] && sector < NUM_SECTORS
    {
      sector := dataSectors[offset / SECTOR_SIZE];
    }
  }
}
