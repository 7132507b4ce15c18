/** Programs that use the file system: each operation of a FileSystem and of the files it opens is a step of FsRuns,
    and so a sequence of them, on a disk just formatted, is a run. */
module FsClients {
  import opened Words
  import opened Disks
  import opened FileHeaders
  import opened OpenFiles
  import opened Directories
  import opened FsViews
  import opened FsImages
  import opened FileSystems
  import opened FsRuns

  /** Opens the named file and writes to it. */
  method DoWrite(fs: FileSystem, name: CString, position: nat, data: seq<byte>) returns (out: Outcome)
    requires fs.Valid()
    modifies fs.disk
    ensures fs.Valid() && FsStep(old(fs.disk.image), Write(name, position, data), fs.disk.image, out)
  {
    hide View.Consistent, Content, Header.WellFormed, ViewOf, OnlyTouched, FileHeaderOf, Splice;
    ghost var img := fs.disk.image;
    FilesAt(img, Key(name));
    var file := fs.Open(name);
    if file == null {
      return Failed;
    }
    var n := file.WriteAt(data, |data|, position);
    WrittenImage(img, fs.disk.image, Key(name), position, data[..n]);
    SystemHeadersKept(img, fs.disk.image, Key(name), position, data[..n]);
    out := Wrote(n);
  }

  lemma SystemHeadersKept(img: Image, img': Image, key: CString, position: nat, data: seq<byte>)
    requires Consistent(img) && Written(img, img', key, position, data)
    ensures HeaderAt(img', FREE_MAP_SECTOR) == HeaderAt(img, FREE_MAP_SECTOR)
    ensures HeaderAt(img', DIRECTORY_SECTOR) == HeaderAt(img, DIRECTORY_SECTOR)
  {
    hide View.Consistent, Written;
    WrittenView(img, img', key, position, data);
    var v := ViewOf(img);
    assert v.Live(0) && v.HeaderSector(0) == 0 && v.Live(1) && v.HeaderSector(1) == 1;
  }

  /** Opens the named file and reads from it. */
  method DoRead(fs: FileSystem, name: CString, position: nat, count: nat) returns (out: Outcome)
    requires fs.Valid()
    ensures FsStep(fs.disk.image, Read(name, position, count), fs.disk.image, out)
  {
    hide View.Consistent, Content, Header.WellFormed, ViewOf, FileHeaderOf, Slice;
    var file := fs.Open(name);
    if file == null {
      return Failed;
    }
    var into := new byte[count];
    var n := file.ReadAt(into, 0, count, position);
    out := Got(into[..n]);
    assert into[..n] == Slice(file.Bytes(), position, n);
  }

  method Perform(fs: FileSystem, op: FsOp) returns (out: Outcome)
    requires fs.Valid()
    modifies fs.disk
    ensures fs.Valid() && FsStep(old(fs.disk.image), op, fs.disk.image, out)
  {
    hide View.Consistent, ViewOf, Files, CanCreate, Created, Removed, AddsFile;
    match op
    case Create(name, size) =>
      var success := fs.Create(name, size);
      out := if success then Succeeded else Failed;
    case Remove(name) =>
      var success := fs.Remove(name);
      out := if success then Succeeded else Failed;
    case Write(name, position, data) =>
      out := DoWrite(fs, name, position, data);
    case Read(name, position, count) =>
      out := DoRead(fs, name, position, count);
  }

  lemma NoOps(img: Image)
    ensures IsRun([img], [], [])
  {
  }

  /** Carries out the operations one after the other. */
  method PerformAll(fs: FileSystem, ops: seq<FsOp>) returns (outs: seq<Outcome>, ghost disks: seq<Image>)
    requires fs.Valid()
    modifies fs.disk
    ensures fs.Valid() && IsRun(disks, ops, outs) && disks[0] == old(fs.disk.image) && disks[|ops|] == fs.disk.image
  {
    hide FsStep, IsRun, Consistent;
    outs, disks := [], [fs.disk.image];
    assert IsRun(disks, [], outs) by { NoOps(fs.disk.image); }
    assert ops[..0] == [];
    for i := 0 to |ops|
      invariant fs.Valid() && |disks| == i + 1 && IsRun(disks, ops[..i], outs)
      invariant disks[0] == old(fs.disk.image) && disks[i] == fs.disk.image
    {
      var out := Perform(fs, ops[i]);
      RunMore(disks, ops[..i], outs, ops[i], fs.disk.image, out);
      assert ops[..i + 1] == ops[..i] + [ops[i]];
      outs, disks := outs + [out], disks + [fs.disk.image];
    }
    assert ops[..|ops|] == ops;
  }

  /** Formats a disk and carries out the operations: what the caller learns, and what is then on the disk, are what a
      map from names to byte strings, empty at first, gives. */
  method FormatAndPerform(disk: SynchDisk, ops: seq<FsOp>)
    returns (outs: seq<Outcome>, ghost maps: seq<map<CString, seq<byte>>>)
    modifies disk
    ensures Consistent(disk.image) && |outs| == |ops| && |maps| == |ops| + 1
    ensures maps[0] == map[] && maps[|ops|] == Files(disk.image)
    ensures forall i :: 0 <= i < |ops| ==> MapStep(maps[i], ops[i], maps[i + 1], outs[i])
  {
    hide Consistent, FsStep, MapStep, Files, IsRun;
    var fs := new FileSystem(disk, true);
    ghost var disks;
    outs, disks := PerformAll(fs, ops);
    maps := MapsOf(disks, ops, outs);
  }

  lemma MapsOf(disks: seq<Image>, ops: seq<FsOp>, outs: seq<Outcome>) returns (maps: seq<map<CString, seq<byte>>>)
    requires IsRun(disks, ops, outs) && Consistent(disks[0])
    ensures |maps| == |disks| == |ops| + 1 && |outs| == |ops|
    ensures forall i :: 0 <= i <= |ops| ==> Consistent(disks[i]) && maps[i] == Files(disks[i])
    ensures forall i :: 0 <= i < |ops| ==> MapStep(maps[i], ops[i], maps[i + 1], outs[i])
  {
    hide Consistent, FsStep, MapStep, Files;
    forall i | 0 <= i <= |ops|
      ensures Consistent(disks[i])
      ensures i > 0 ==>
        Consistent(disks[i - 1]) && MapStep(Files(disks[i - 1]), ops[i - 1], Files(disks[i]), outs[i - 1])
    {
      RunRefines(disks, ops, outs, i);
    }
    maps := seq(|disks|, i requires 0 <= i < |disks| => Files(disks[i]));
    forall i | 0 <= i < |ops|
      ensures MapStep(maps[i], ops[i], maps[i + 1], outs[i])
    {
      assert MapStep(Files(disks[i + 1 - 1]), ops[i + 1 - 1], Files(disks[i + 1]), outs[i + 1 - 1]);
    }
  }

  /** What was just written is what is read at the same place. */
  method WriteThenRead(file: OpenFile, position: nat, data: seq<byte>) returns (n: nat, back: seq<byte>)
    requires file.Valid()
    modifies file.disk
    ensures n == Clip(old(|file.Bytes()|), |data|, position) && back == data[..n]
  {
    hide Content, Header.WellFormed, OnlyTouched;
    n := file.WriteAt(data, |data|, position);
    var into := new byte[n];
    var m := file.ReadAt(into, 0, n, position);
    back := into[..];
    assert m == n;
    assert back == Slice(file.Bytes(), position, n);
  }
}
