/** The disk as its users see it once SynchDisk has made requests synchronous: an array of sectors,
    read and written one whole sector at a time. */
module Disks {
  import opened Words

  const SECTOR_SIZE := 128
  const SECTORS_PER_TRACK := 32
  const NUM_TRACKS := 32
  const NUM_SECTORS := 1024 // SECTORS_PER_TRACK * NUM_TRACKS

  type Sector = s: seq<byte> | |s| == 128 witness seq(128, i => 0)
  const ZERO_SECTOR: Sector := seq(128, i => 0)
  const BLANK: seq<Sector> := seq<Sector>(1024, (i: nat) => ZERO_SECTOR)
  type Image = d: seq<Sector> | |d| == 1024 witness BLANK

  /** Replaces `|piece|` elements of `buffer`, from position `at` on (the effect of bcopy). */
  function Overlay<T>(buffer: seq<T>, at: nat, piece: seq<T>): (r: seq<T>)
    requires at + |piece| <= |buffer|
    ensures |r| == |buffer|
    ensures forall k :: 0 <= k < |r| ==> r[k] == if at <= k < at + |piece| then piece[k - at] else buffer[k]
  {
    buffer[..at] + piece + buffer[at + |piece|..]
  }

  method BCopy(from: seq<byte>, into: array<byte>, at: nat)
    requires at + |from| <= into.Length
    modifies into
    ensures into[..] == Overlay(old(into[..]), at, from)
  {
    for k := 0 to |from|
      invariant forall j :: 0 <= j < into.Length ==>
        into[j] == if at <= j < at + k then from[j - at] else old(into[j])
    {
      into[at + k] := from[k];
    }
  }

  class SynchDisk {
    var image: Image

    constructor ()
    {
    }

    method ReadSector(sector: nat, data: array<byte>, at: nat)
      requires sector < NUM_SECTORS && at + SECTOR_SIZE <= data.Length
      modifies data
      ensures data[..] == Overlay(old(data[..]), at, image[sector])
    {
      BCopy(image[sector], data, at);
    }

    method WriteSector(sector: nat, data: seq<byte>)
      requires sector < NUM_SECTORS && |data| == SECTOR_SIZE
      modifies this
      ensures image == old(image)[sector := data]
    {
      image := image[sector := data];
    }
  }
}
