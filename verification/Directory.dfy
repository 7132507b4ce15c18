/** filesys/directory.cc: a fixed table of file names and header locations. */
module Directories {
  import opened Words
  import opened OpenFiles

  const FILE_NAME_MAX_LEN := 9
  const ENTRY_SIZE := 20 // sizeof(DirectoryEntry): bool, padding, int, char[10], padding

  /** A C string, without its terminating NUL. */
  type CString = s: seq<byte> | forall i :: 0 <= i < |s| ==> s[i] != 0
  type Field = s: seq<byte> | |s| == 10 witness [0, 0, 0, 0, 0, 0, 0, 0, 0, 0]

  datatype DirectoryEntry = DirectoryEntry(inUse: bool, sector: int32, name: Field)

  // ---------------------------------------------------------------- names

  function CharAt(s: seq<byte>, i: nat): (c: byte) {
    if i < |s| then s[i] else 0
  }

  /** `!strncmp(a, b, n)`, from position `i` on. */
  predicate StrNEqual(a: seq<byte>, b: seq<byte>, n: nat, i: nat)
    requires i <= n
    decreases n - i
  {
    i == n || (CharAt(a, i) == CharAt(b, i) && (CharAt(a, i) == 0 || StrNEqual(a, b, n, i + 1)))
  }

  /** The field after `strncpy(field, name, FileNameMaxLen)`: its last byte is left as it was. */
  function StrNCopy(field: Field, name: CString): (r: Field) {
    seq(10, i requires 0 <= i < 10 => if i < FILE_NAME_MAX_LEN then CharAt(name, i) else field[i])
  }

  /** What identifies a file: the characters of its name that are looked at. */
  function Key(name: CString): (k: CString) {
    if |name| <= FILE_NAME_MAX_LEN then name else name[..FILE_NAME_MAX_LEN]
  }

  function UpToNul(s: seq<byte>): (r: CString)
    ensures r <= s && (r == s || s[|r|] == 0)
  {
    if s == [] || s[0] == 0 then [] else [s[0]] + UpToNul(s[1..])
  }

  /** The key of a stored name. */
  function StoredKey(field: Field): (k: CString) {
    UpToNul(field[..FILE_NAME_MAX_LEN])
  }

  lemma {:induction false} StrNEqualFrom(field: Field, name: CString, i: nat)
    requires i <= FILE_NAME_MAX_LEN && i <= |StoredKey(field)| && i <= |Key(name)|
    requires StoredKey(field)[..i] == Key(name)[..i]
    ensures StrNEqual(field, name, FILE_NAME_MAX_LEN, i) <==> StoredKey(field) == Key(name)
    decreases FILE_NAME_MAX_LEN - i
  {
    var a, b := StoredKey(field), Key(name);
    if i == FILE_NAME_MAX_LEN {
      assert a == a[..i] && b == b[..i];
    } else {
      assert CharAt(field, i) == CharAt(a, i);
      assert CharAt(name, i) == CharAt(b, i);
      if CharAt(a, i) == CharAt(b, i) == 0 {
        assert a == a[..i] && b == b[..i];
      } else if CharAt(a, i) == CharAt(b, i) {
        assert a[..i + 1] == a[..i] + [a[i]];
        assert b[..i + 1] == b[..i] + [b[i]];
        StrNEqualFrom(field, name, i + 1);
      }
    }
  }

  /** Two names are the same file exactly when their first nine characters agree. */
  lemma StrNEqualIsSameKey(field: Field, name: CString)
    ensures StrNEqual(field, name, FILE_NAME_MAX_LEN, 0) <==> StoredKey(field) == Key(name)
  {
    StrNEqualFrom(field, name, 0);
  }

  lemma {:induction false} UpToNulOfPadded(s: CString, zeros: seq<byte>)
    requires zeros == [] || zeros[0] == 0
    ensures UpToNul(s + zeros) == s
  {
    if s == [] {
      assert s + zeros == zeros;
    } else {
      assert (s + zeros)[1..] == s[1..] + zeros;
      UpToNulOfPadded(s[1..], zeros);
    }
  }

  /** Storing a name and reading its key back. */
  lemma StrNCopyKey(field: Field, name: CString)
    ensures StoredKey(StrNCopy(field, name)) == Key(name)
  {
    var zeros: seq<byte> := seq(9 - |Key(name)|, i => 0);
    assert StrNCopy(field, name)[..9] == Key(name) + zeros;
    UpToNulOfPadded(Key(name), zeros);
  }

  // ---------------------------------------------------------------- layout

  function EncodeEntry(e: DirectoryEntry): (bs: seq<byte>)
    ensures |bs| == ENTRY_SIZE
  {
    [if e.inUse then 1 else 0, 0, 0, 0] + WordBytes(ToUnsigned(e.sector)) + e.name + [0, 0]
  }

  function DecodeEntry(bs: seq<byte>): (e: DirectoryEntry)
    requires |bs| == ENTRY_SIZE
  {
    DirectoryEntry(bs[0] != 0, ToSigned(BytesWord(bs[4], bs[5], bs[6], bs[7])), bs[8..18])
  }

  lemma EntryRoundTrip(e: DirectoryEntry)
    ensures DecodeEntry(EncodeEntry(e)) == e
  {
    hide WordBytes, BytesWord, ToSigned, ToUnsigned;
    WordRoundTrip(ToUnsigned(e.sector));
    SignedRoundTrip(e.sector);
    assert EncodeEntry(e)[8..18] == e.name;
  }

  function EncodeTable(table: seq<DirectoryEntry>): (bs: seq<byte>)
    ensures |bs| == ENTRY_SIZE * |table|
  {
    if table == [] then [] else EncodeEntry(table[0]) + EncodeTable(table[1..])
  }

  function DecodeTable(bs: seq<byte>, n: nat): (table: seq<DirectoryEntry>)
    requires |bs| == ENTRY_SIZE * n
    ensures |table| == n
  {
    if n == 0 then [] else [DecodeEntry(bs[..ENTRY_SIZE])] + DecodeTable(bs[ENTRY_SIZE..], n - 1)
  }

  lemma {:induction false} TableRoundTrip(table: seq<DirectoryEntry>)
    ensures DecodeTable(EncodeTable(table), |table|) == table
  {
    if table != [] {
      hide EncodeEntry, DecodeEntry;
      EntryRoundTrip(table[0]);
      TableRoundTrip(table[1..]);
      var bs := EncodeTable(table);
      assert bs[..ENTRY_SIZE] == EncodeEntry(table[0]);
      assert bs[ENTRY_SIZE..] == EncodeTable(table[1..]);
    }
  }

  // ---------------------------------------------------------------- lookup

  predicate Matches(e: DirectoryEntry, key: CString) {
    e.inUse && StoredKey(e.name) == key
  }

  /** Where a key is in the table, or -1. */
  function Lookup(table: seq<DirectoryEntry>, key: CString): (i: int)
    ensures -1 <= i < |table|
    ensures i >= 0 ==> Matches(table[i], key) && forall j :: 0 <= j < i ==> !Matches(table[j], key)
    ensures i == -1 ==> forall j :: 0 <= j < |table| ==> !Matches(table[j], key)
  {
    LookupFrom(table, key, 0)
  }

  function LookupFrom(table: seq<DirectoryEntry>, key: CString, from: nat): (i: int)
    requires from <= |table| && forall j :: 0 <= j < from ==> !Matches(table[j], key)
    ensures -1 <= i < |table|
    ensures i >= 0 ==> Matches(table[i], key) && forall j :: 0 <= j < i ==> !Matches(table[j], key)
    ensures i == -1 ==> forall j :: 0 <= j < |table| ==> !Matches(table[j], key)
    decreases |table| - from
  {
    if from == |table| then -1
    else if Matches(table[from], key) then from
    else LookupFrom(table, key, from + 1)
  }

  /** The first entry not in use, or -1. */
  function FreeSlot(table: seq<DirectoryEntry>): (i: int)
    ensures -1 <= i < |table|
    ensures i >= 0 ==> !table[i].inUse && forall j :: 0 <= j < i ==> table[j].inUse
    ensures i == -1 ==> forall j :: 0 <= j < |table| ==> table[j].inUse
  {
    FreeSlotFrom(table, 0)
  }

  function FreeSlotFrom(table: seq<DirectoryEntry>, from: nat): (i: int)
    requires from <= |table| && forall j :: 0 <= j < from ==> table[j].inUse
    ensures -1 <= i < |table|
    ensures i >= 0 ==> !table[i].inUse && forall j :: 0 <= j < i ==> table[j].inUse
    ensures i == -1 ==> forall j :: 0 <= j < |table| ==> table[j].inUse
    decreases |table| - from
  {
    if from == |table| then -1 else if !table[from].inUse then from else FreeSlotFrom(table, from + 1)
  }

  /** The table with `name` recorded in entry `i`. */
  function WithEntry(table: seq<DirectoryEntry>, i: nat, name: CString, sector: int32): (r: seq<DirectoryEntry>)
    requires i < |table|
    ensures |r| == |table|
  {
    table[i := DirectoryEntry(true, sector, StrNCopy(table[i].name, name))]
  }

  function WithoutEntry(table: seq<DirectoryEntry>, i: nat): (r: seq<DirectoryEntry>)
    requires i < |table|
    ensures |r| == |table|
  {
    table[i := table[i].(inUse := false)]
  }

  /** No two entries in use carry the same key. */
  ghost predicate DistinctKeys(table: seq<DirectoryEntry>) {
    forall i, j :: 0 <= i < j < |table| && table[i].inUse && table[j].inUse ==>
      StoredKey(table[i].name) != StoredKey(table[j].name)
  }

  class Directory {
    const table: array<DirectoryEntry>

    /** An empty directory; the other fields of its entries are whatever the allocator left there. */
    constructor (size: nat, garbage: DirectoryEntry)
      ensures fresh(table) && table.Length == size
      ensures forall i :: 0 <= i < size ==> !table[i].inUse
    {
      table := new DirectoryEntry[size](i => garbage);
      new;
      for i := 0 to size
        invariant forall j :: 0 <= j < i ==> !table[j].inUse
      {
        table[i] := table[i].(inUse := false);
      }
    }

    method FetchFrom(file: OpenFile)
      requires file.Valid() && |file.Bytes()| == ENTRY_SIZE * table.Length && table.Length > 0
      modifies table
      ensures table[..] == DecodeTable(file.Bytes(), table.Length)
    {
      hide DecodeTable;
      var buf := new byte[ENTRY_SIZE * table.Length];
      var n := file.ReadAt(buf, 0, ENTRY_SIZE * table.Length, 0);
      assert buf[..] == file.Bytes();
      var entries := DecodeTable(buf[..], table.Length);
      for i := 0 to table.Length
        invariant table[..i] == entries[..i]
      {
        table[i] := entries[i];
      }
    }

    method WriteBack(file: OpenFile)
      requires file.Valid() && |file.Bytes()| == ENTRY_SIZE * table.Length && table.Length > 0
      modifies file.disk
      ensures file.Bytes() == EncodeTable(table[..])
      ensures OnlyTouched(old(file.disk.image), file.disk.image, file.hdr.View(), 0, ENTRY_SIZE * table.Length)
    {
      hide EncodeTable;
      var bytes := EncodeTable(table[..]);
      var n := file.WriteAt(bytes, ENTRY_SIZE * table.Length, 0);
      assert bytes[..n] == bytes;
    }

    method FindIndex(name: CString) returns (i: int)
      ensures i == Lookup(table[..], Key(name))
    {
      for k := 0 to table.Length
        invariant forall j :: 0 <= j < k ==> !Matches(table[j], Key(name))
      {
        StrNEqualIsSameKey(table[k].name, name);
        if table[k].inUse && StrNEqual(table[k].name, name, FILE_NAME_MAX_LEN, 0) {
          return k;
        }
      }
      return -1;
    }

    /** The sector of the header of the named file, or -1. */
    method Find(name: CString) returns (sector: int)
      ensures var i := Lookup(table[..], Key(name)); sector == if i == -1 then -1 else table[i].sector
    {
      var i := FindIndex(name);
      return if i != -1 then table[i].sector else -1;
    }

    /** Records a new name in the first free entry, unless the name is there or there is no such entry. */
    method Add(name: CString, newSector: int32) returns (ok: bool)
      modifies table
      ensures ok == (Lookup(old(table[..]), Key(name)) == -1 && FreeSlot(old(table[..])) != -1)
      ensures table[..] == if ok then WithEntry(old(table[..]), FreeSlot(old(table[..])), name, newSector)
                           else old(table[..])
    {
      var i := FindIndex(name);
      if i != -1 {
        return false;
      }
      for k := 0 to table.Length
        invariant table[..] == old(table[..])
        invariant forall j :: 0 <= j < k ==> table[j].inUse
      {
        if !table[k].inUse {
          table[k] := DirectoryEntry(true, newSector, StrNCopy(table[k].name, name));
          return true;
        }
      }
      return false;
    }

    method Remove(name: CString) returns (ok: bool)
      modifies table
      ensures ok == (Lookup(old(table[..]), Key(name)) != -1)
      ensures table[..] == if ok then WithoutEntry(old(table[..]), Lookup(old(table[..]), Key(name)))
                           else old(table[..])
    {
      var i := FindIndex(name);
      if i == -1 {
        return false;
      }
      table[i] := table[i].(inUse := false);
      return true;
    }
  }
}
