/** filesys/pbitmap.cc: a bitmap that is kept in a file. */
module PersistentBitmaps {
  import opened Words
  import opened Bitmaps
  import opened OpenFiles

  /** The bits that a file of words stores. */
  ghost function StoredBits(bytes: seq<byte>, numBits: nat): (bits: seq<bool>)
    requires numBits > 0 && |bytes| == 4 * DivRoundUp(numBits, BITS_IN_WORD)
    ensures |bits| == numBits
  {
    BitsOf(DecodeWords(bytes, DivRoundUp(numBits, BITS_IN_WORD)), numBits)
  }

  /** Initializes a bitmap from a disk file. */
  method FetchFrom(file: OpenFile, numItems: nat) returns (bitmap: Bitmap)
    requires file.Valid() && numItems > 0 && |file.Bytes()| == 4 * DivRoundUp(numItems, BITS_IN_WORD)
    ensures fresh(bitmap) && fresh(bitmap.words) && bitmap.Valid() && bitmap.numBits == numItems
    ensures bitmap.Bits() == StoredBits(file.Bytes(), numItems)
  {
    bitmap := new Bitmap(numItems);
    var size := 4 * bitmap.words.Length;
    var buf := new byte[size];
    var n := file.ReadAt(buf, 0, size, 0);
    assert buf[..] == file.Bytes();
    Load(bitmap.words, buf[..]);
  }

  method Load(words: array<uint32>, bytes: seq<byte>)
    requires |bytes| == 4 * words.Length
    modifies words
    ensures words[..] == DecodeWords(bytes, words.Length)
  {
    var ws := DecodeWords(bytes, words.Length);
    for i := 0 to words.Length
      invariant words[..i] == ws[..i]
    {
      words[i] := ws[i];
    }
  }

  /** Stores the contents of a bitmap to a file. */
  method WriteBack(bitmap: Bitmap, file: OpenFile)
    requires bitmap.Valid() && file.Valid() && |file.Bytes()| == 4 * DivRoundUp(bitmap.numBits, BITS_IN_WORD)
    modifies file.disk
    ensures |file.Bytes()| == 4 * DivRoundUp(bitmap.numBits, BITS_IN_WORD)
    ensures StoredBits(file.Bytes(), bitmap.numBits) == bitmap.Bits()
    ensures OnlyTouched(old(file.disk.image), file.disk.image, file.hdr.View(), 0, |file.Bytes()|)
  {
    var bytes := EncodeWords(bitmap.words[..]);
    WordsRoundTrip(bitmap.words[..], []);
    assert bytes + [] == bytes;
    var n := file.WriteAt(bytes, |bytes|, 0);
    assert bytes[..n] == bytes;
    assert file.Bytes() == bytes;
  }
}
