/** filesys/openfile.cc: byte-granular reading and writing of a file on a disk that knows only whole sectors. */
module OpenFiles {
  import opened Words
  import opened Disks
  import opened FileHeaders

  /** How many of the requested bytes lie inside a file of the given length. */
  function Clip(length: nat, numBytes: int, position: nat): (n: nat)
    ensures n > 0 ==> n <= numBytes && position + n <= length
    ensures n < numBytes ==> position + n >= length
  {
    if numBytes <= 0 || position >= length then 0
    else if position + numBytes > length then length - position
    else numBytes
  }

  /** The `n` bytes from `position` on; nothing when the request was clipped to nothing. */
  function Slice(bytes: seq<byte>, position: nat, n: nat): (r: seq<byte>)
    requires n > 0 ==> position + n <= |bytes|
    ensures |r| == n
  {
    if n == 0 then [] else bytes[position..position + n]
  }

  /** A byte sequence with `data` written over it from `position` on. */
  function Splice(bytes: seq<byte>, position: nat, data: seq<byte>): (r: seq<byte>)
    requires data != [] ==> position + |data| <= |bytes|
    ensures |r| == |bytes|
  {
    if data == [] then bytes else Overlay(bytes, position, data)
  }

  /** The sectors a transfer of `n > 0` bytes at `position` goes through. */
  ghost function Touched(h: Header, position: nat, n: nat): (s: seq<int32>)
    requires h.WellFormed() && n > 0 && position + n <= h.numBytes
  {
    h.dataSectors[position / SECTOR_SIZE..(position + n - 1) / SECTOR_SIZE + 1]
  }

  /** `before` and `after` agree except on the sectors of a transfer. */
  ghost predicate OnlyTouched(before: Image, after: Image, h: Header, position: nat, n: nat)
    requires h.WellFormed() && (n > 0 ==> position + n <= h.numBytes)
  {
    if n == 0 then before == after
    else forall s :: 0 <= s < NUM_SECTORS && s !in Touched(h, position, n) ==> before[s] == after[s]
  }

  /** The buffer holds the given sectors of the file, one after the other. */
  ghost predicate Holds(buf: seq<byte>, image: Image, h: Header, first: nat, count: nat)
    requires h.WellFormed() && first + count <= h.numSectors
  {
    && 128 * count <= |buf|
    && forall k :: 0 <= k < 128 * count ==> buf[k] == image[h.dataSectors[first + k / 128]][k % 128]
  }

  lemma HoldsContent(buf: seq<byte>, image: Image, h: Header, first: nat, count: nat, position: nat, n: nat)
    requires h.WellFormed() && first + count <= h.numSectors && Holds(buf, image, h, first, count)
    requires 128 * first <= position && position + n <= 128 * (first + count) && position + n <= h.numBytes
    ensures buf[position - 128 * first..position - 128 * first + n] == Content(image, h)[position..position + n]
  {
    var off := position - 128 * first;
    var got, want := buf[off..off + n], Content(image, h)[position..position + n];
    forall k | 0 <= k < n
      ensures got[k] == want[k]
    {
      assert (position + k) / 128 == first + (off + k) / 128;
      assert (position + k) % 128 == (off + k) % 128;
    }
  }

  lemma SectorSpan(h: Header, position: nat, n: nat)
    requires h.WellFormed() && n > 0 && position + n <= h.numBytes
    ensures 0 <= position / 128 <= (position + n - 1) / 128 < h.numSectors <= NUM_DIRECT
    ensures 128 * (position / 128) <= position
    ensures position + n <= 128 * ((position + n - 1) / 128 + 1)
  {
  }

  /** The buffer, written out from sector `first` of the file on, would give the file the bytes `want`. */
  ghost predicate Ready(buf: seq<byte>, want: seq<byte>, first: nat) {
    forall k :: 0 <= k < |buf| && 128 * first + k < |want| ==> buf[k] == want[128 * first + k]
  }

  /** The buffer's copy of one sector of the file is right, as far as the file goes. */
  ghost predicate Loaded(buf: seq<byte>, bytes: seq<byte>, first: nat, sector: nat) {
    forall k :: 0 <= k < |buf| && 0 <= k - 128 * (sector - first) < 128 && 128 * first + k < |bytes| ==>
      buf[k] == bytes[128 * first + k]
  }

  /** It is enough to load the two sectors that are written only in part. */
  lemma MixedIsReady(buf: seq<byte>, bytes: seq<byte>, data: seq<byte>, position: nat, first: nat)
    requires data != [] && position + |data| <= |bytes| && first == position / 128
    requires var last := (position + |data| - 1) / 128;
      && |buf| == 128 * (1 + last - first)
      && (position == 128 * first || Loaded(buf, bytes, first, first))
      && (position + |data| == 128 * (last + 1) || Loaded(buf, bytes, first, last))
    ensures Ready(Overlay(buf, position - 128 * first, data), Overlay(bytes, position, data), first)
  {
    var last := (position + |data| - 1) / 128;
    var mixed := Overlay(buf, position - 128 * first, data);
    forall k | 0 <= k < |mixed| && 128 * first + k < |bytes|
      ensures mixed[k] == Overlay(bytes, position, data)[128 * first + k]
    {
    }
  }

  /** Sectors `first`, `first + 1`, ... of the file hold the buffer, and no other sector has changed. */
  ghost predicate Stored(before: Image, after: Image, h: Header, first: nat, count: nat, buf: seq<byte>)
    requires h.WellFormed() && first + count <= h.numSectors && 128 * count <= |buf|
  {
    && (forall i :: first <= i < first + count ==>
          after[h.dataSectors[i]] == buf[128 * (i - first)..128 * (i - first) + 128])
    && (forall s :: 0 <= s < NUM_SECTORS && s !in h.dataSectors[first..first + count] ==> after[s] == before[s])
  }

  lemma StoredNone(image: Image, h: Header, first: nat, buf: seq<byte>)
    requires h.WellFormed() && first <= h.numSectors
    ensures Stored(image, image, h, first, 0, buf)
  {
  }

  lemma StoredStep(before: Image, now: Image, h: Header, first: nat, count: nat, buf: seq<byte>)
    requires h.WellFormed() && first + count < h.numSectors && 128 * (count + 1) <= |buf|
    requires Stored(before, now, h, first, count, buf)
    ensures Stored(before, now[h.dataSectors[first + count] := buf[128 * count..128 * count + 128]],
                   h, first, count + 1, buf)
  {
    var after := now[h.dataSectors[first + count] := buf[128 * count..128 * count + 128]];
    var ds := h.dataSectors;
    assert ds[first..first + count + 1] == ds[first..first + count] + [ds[first + count]];
  }

  lemma StoredInside(before: Image, after: Image, h: Header, first: nat, count: nat, buf: seq<byte>, i: nat)
    requires h.WellFormed() && first + count <= h.numSectors && 128 * count == |buf|
    requires Stored(before, after, h, first, count, buf)
    requires i < h.numBytes && first <= i / 128 < first + count
    ensures 0 <= i - 128 * first < |buf| && Content(after, h)[i] == buf[i - 128 * first]
  {
    var j := i / 128;
    assert after[h.dataSectors[j]] == buf[128 * (j - first)..128 * (j - first) + 128];
    assert i - 128 * first == 128 * (j - first) + i % 128;
  }

  lemma StoredOutside(before: Image, after: Image, h: Header, first: nat, count: nat, buf: seq<byte>, i: nat)
    requires h.WellFormed() && first + count <= h.numSectors && 128 * count == |buf|
    requires Stored(before, after, h, first, count, buf)
    requires i < h.numBytes && !(first <= i / 128 < first + count)
    ensures Content(after, h)[i] == Content(before, h)[i]
  {
    var j := i / 128;
    var written := h.dataSectors[first..first + count];
    assert forall m :: 0 <= m < count ==> written[m] == h.dataSectors[first + m] != h.dataSectors[j];
    assert h.dataSectors[j] !in written;
  }

  /** Writing back a prepared buffer leaves exactly the wanted bytes in the file. */
  lemma StoredContent(before: Image, after: Image, h: Header, first: nat, count: nat, buf: seq<byte>, want: seq<byte>)
    requires h.WellFormed() && first + count <= h.numSectors && 128 * count == |buf|
    requires |want| == h.numBytes && Ready(buf, want, first) && Stored(before, after, h, first, count, buf)
    requires forall i :: 0 <= i < h.numBytes && !(128 * first <= i < 128 * (first + count)) ==>
      want[i] == Content(before, h)[i]
    ensures Content(after, h) == want
  {
    hide Stored, Header.WellFormed, Content;
    forall i | 0 <= i < h.numBytes
      ensures Content(after, h)[i] == want[i]
    {
      if first <= i / 128 < first + count {
        StoredInside(before, after, h, first, count, buf, i);
      } else {
        StoredOutside(before, after, h, first, count, buf, i);
      }
    }
  }

  lemma StoredOnlyTouches(before: Image, after: Image, h: Header, position: nat, n: nat, buf: seq<byte>)
    requires h.WellFormed() && n > 0 && position + n <= h.numBytes
    requires var first := position / 128; var count := (position + n - 1) / 128 + 1 - first;
             first + count <= h.numSectors && 128 * count <= |buf| && Stored(before, after, h, first, count, buf)
    ensures OnlyTouched(before, after, h, position, n)
  {
    var first := position / 128;
    var count := (position + n - 1) / 128 + 1 - first;
    assert Touched(h, position, n) == h.dataSectors[first..first + count];
  }

  class OpenFile {
    const disk: SynchDisk
    const hdr: FileHeader
    var seekPosition: int

    ghost predicate Valid()
      reads this, hdr
    {
      hdr.View().WellFormed()
    }

    ghost function Bytes(): (bytes: seq<byte>)
      requires Valid()
      reads this, hdr, disk
    {
      Content(disk.image, hdr.View())
    }

    /** Opens the file whose header is in `sector`. */
    constructor (disk: SynchDisk, sector: nat)
      requires sector < NUM_SECTORS && DecodeHeader(disk.image[sector]).WellFormed()
      ensures Valid() && this.disk == disk && fresh(hdr) && seekPosition == 0
      ensures hdr.View() == DecodeHeader(disk.image[sector])
    {
      this.disk := disk;
      hdr := new FileHeader(0, 0, seq(NUM_DIRECT, i => 0));
      seekPosition := 0;
      new;
      hdr.FetchFrom(disk, sector);
    }

    /** Copies the part of the request that lies in the file into the buffer. */
    method ReadAt(into: array<byte>, at: nat, numBytes: int, position: nat) returns (n: nat)
      requires Valid() && at + numBytes <= into.Length && at <= into.Length
      modifies into
      ensures n == Clip(|Bytes()|, numBytes, position)
      ensures at + n <= into.Length
      ensures into[..] == Overlay(old(into[..]), at, Slice(Bytes(), position, n))
    {
      var fileLength := hdr.numBytes;
      if numBytes <= 0 || position >= fileLength {
        return 0;
      }
      n := if position + numBytes > fileLength then fileLength - position else numBytes;
      var data := ReadRange(position, n);
      BCopy(data, into, at);
    }

    /** Reads in all the full and partial sectors of the request and picks the part that is wanted. */
    method ReadRange(position: nat, n: nat) returns (data: seq<byte>)
      requires Valid() && n > 0 && position + n <= |Bytes()|
      ensures data == Bytes()[position..position + n]
    {
      hide Holds, Content, Touched, Header.WellFormed;
      SectorSpan(hdr.View(), position, n);
      var firstSector := position / SECTOR_SIZE;
      var lastSector := (position + n - 1) / SECTOR_SIZE;
      var numSectors := 1 + lastSector - firstSector;
      var buf := new byte[numSectors * SECTOR_SIZE];
      ReadSectors(buf, firstSector, lastSector);
      HoldsContent(buf[..], disk.image, hdr.View(), firstSector, numSectors, position, n);
      var from := position - firstSector * SECTOR_SIZE;
      data := buf[..][from..from + n];
    }

    /** The loop of ReadAt: fetches all the full and partial sectors of the request. */
    method ReadSectors(buf: array<byte>, firstSector: nat, lastSector: nat)
      requires Valid() && firstSector <= lastSector < hdr.numSectors
      requires buf.Length == (1 + lastSector - firstSector) * SECTOR_SIZE
      modifies buf
      ensures Holds(buf[..], disk.image, hdr.View(), firstSector, 1 + lastSector - firstSector)
    {
      for i := firstSector to lastSector + 1
        invariant Holds(buf[..], disk.image, hdr.View(), firstSector, i - firstSector)
      {
        var sector := hdr.ByteToSector(i * SECTOR_SIZE);
        disk.ReadSector(sector, buf, (i - firstSector) * SECTOR_SIZE);
      }
    }

    /** Splices the part of the request that lies in the file into the file's bytes. */
    method WriteAt(from: seq<byte>, numBytes: int, position: nat) returns (n: nat)
      requires Valid() && numBytes <= |from|
      modifies disk
      ensures n == Clip(old(|Bytes()|), numBytes, position)
      ensures Bytes() == Splice(old(Bytes()), position, from[..n])
      ensures OnlyTouched(old(disk.image), disk.image, hdr.View(), position, n)
    {
      var fileLength := hdr.numBytes;
      if numBytes <= 0 || position >= fileLength {
        return 0;
      }
      n := if position + numBytes > fileLength then fileLength - position else numBytes;
      WriteRange(from[..n], position);
    }

    method WriteRange(data: seq<byte>, position: nat)
      requires Valid() && data != [] && position + |data| <= |Bytes()|
      modifies disk
      ensures Bytes() == Overlay(old(Bytes()), position, data)
      ensures OnlyTouched(old(disk.image), disk.image, hdr.View(), position, |data|)
    {
      hide Ready, Stored, Content, Header.WellFormed;
      SectorSpan(hdr.View(), position, |data|);
      var firstSector := position / SECTOR_SIZE;
      var lastSector := (position + |data| - 1) / SECTOR_SIZE;
      var numSectors := 1 + lastSector - firstSector;
      var buf := FillBuffer(data, position, firstSector, lastSector);
      ghost var want := Overlay(Bytes(), position, data);
      WriteSectors(buf, firstSector, lastSector);
      StoredContent(old(disk.image), disk.image, hdr.View(), firstSector, numSectors, buf, want);
      StoredOnlyTouches(old(disk.image), disk.image, hdr.View(), position, |data|, buf);
    }

    /** Reads in the first and last sector if they are to be partially modified, then copies in the new bytes.
        The bytes of the last sector that lie beyond the end of the file are whatever the allocator left there. */
    method FillBuffer(data: seq<byte>, position: nat, firstSector: nat, lastSector: nat) returns (bytes: seq<byte>)
      requires Valid() && data != [] && position + |data| <= |Bytes()|
      requires firstSector == position / SECTOR_SIZE && lastSector == (position + |data| - 1) / SECTOR_SIZE
      ensures |bytes| == SECTOR_SIZE * (1 + lastSector - firstSector)
      ensures Ready(bytes, Overlay(Bytes(), position, data), firstSector)
    {
      hide Content, Header.WellFormed;
      var buf := new byte[(1 + lastSector - firstSector) * SECTOR_SIZE];
      var firstAligned := position == firstSector * SECTOR_SIZE;
      var lastAligned := position + |data| == (lastSector + 1) * SECTOR_SIZE;
      if !firstAligned {
        LoadSector(buf, firstSector, firstSector);
      }
      if !lastAligned && (firstSector != lastSector || firstAligned) {
        LoadSector(buf, firstSector, lastSector);
      }
      ghost var loaded := buf[..];
      BCopy(data, buf, position - firstSector * SECTOR_SIZE);
      bytes := buf[..];
      MixedIsReady(loaded, Bytes(), data, position, firstSector);
    }

    /** Reads one sector of the file into its place in a buffer that starts with sector `firstSector`. */
    method LoadSector(buf: array<byte>, firstSector: nat, sector: nat)
      requires Valid() && firstSector <= sector && SECTOR_SIZE * sector < |Bytes()|
      requires SECTOR_SIZE * (sector - firstSector) + SECTOR_SIZE <= buf.Length
      modifies buf
      ensures Loaded(buf[..], Bytes(), firstSector, sector)
      ensures forall k :: 0 <= k < buf.Length && !(0 <= k - 128 * (sector - firstSector) < 128) ==>
        buf[k] == old(buf[k])
    {
      hide Content, Header.WellFormed;
      var _ := ReadAt(buf, (sector - firstSector) * SECTOR_SIZE, SECTOR_SIZE, sector * SECTOR_SIZE);
    }

    method WriteSectors(buf: seq<byte>, firstSector: nat, lastSector: nat)
      requires Valid() && firstSector <= lastSector < hdr.numSectors
      requires |buf| == SECTOR_SIZE * (1 + lastSector - firstSector)
      modifies disk
      ensures Stored(old(disk.image), disk.image, hdr.View(), firstSector, 1 + lastSector - firstSector, buf)
    {
      hide Stored;
      StoredNone(disk.image, hdr.View(), firstSector, buf);
      for i := firstSector to lastSector + 1
        invariant Stored(old(disk.image), disk.image, hdr.View(), firstSector, i - firstSector, buf)
      {
        var sector := hdr.ByteToSector(i * SECTOR_SIZE);
        StoredStep(old(disk.image), disk.image, hdr.View(), firstSector, i - firstSector, buf);
        disk.WriteSector(sector, buf[(i - firstSector) * SECTOR_SIZE..(i - firstSector) * SECTOR_SIZE + SECTOR_SIZE]);
      }
    }

    /** Reads from the current position and moves it past what was read. */
    method Read(into: array<byte>, numBytes: int) returns (n: nat)
      requires Valid() && seekPosition >= 0 && numBytes <= into.Length
      modifies into, this
      ensures n == Clip(|Bytes()|, numBytes, old(seekPosition)) && seekPosition == old(seekPosition) + n
      ensures n <= into.Length && into[..] == Overlay(old(into[..]), 0, Slice(Bytes(), old(seekPosition), n))
    {
      n := ReadAt(into, 0, numBytes, seekPosition);
      seekPosition := seekPosition + n;
    }

    /** Writes at the current position and moves it past what was written. */
    method Write(from: seq<byte>, numBytes: int) returns (n: nat)
      requires Valid() && seekPosition >= 0 && numBytes <= |from|
      modifies disk, this
      ensures n == Clip(old(|Bytes()|), numBytes, old(seekPosition)) && seekPosition == old(seekPosition) + n
      ensures Bytes() == Splice(old(Bytes()), old(seekPosition), from[..n])
      ensures OnlyTouched(old(disk.image), disk.image, hdr.View(), old(seekPosition), n)
    {
      n := WriteAt(from, numBytes, seekPosition);
      seekPosition := seekPosition + n;
    }

    method Seek(position: int)
      modifies this
      ensures seekPosition == position
    {
      seekPosition := position;
    }
  }
}
