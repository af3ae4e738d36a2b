/** The file table: 42 fixed-size entries in one block, cached in RAM. */
module FileTables {
  import opened Bits
  import opened Bytes
  import opened RamDisks

  const MAX_NAME_LEN: nat := 64
  const MAX_ENTRIES: nat := 42
  const ENTRY_SIZE: nat := 96
  const TABLE_SIZE: nat := 4032

  type NameField = s: seq<byte> | |s| == MAX_NAME_LEN witness Zeros(MAX_NAME_LEN)

  // ---- Entries ----

  datatype FileEntry = FileEntry(name: NameField, startBlock: u64, blockCount: u64, byteLength: u64,
                                 flags: u32, reserved: u32)
  {
    /** Bit 0 of the flags; `FlagBit` says that this is `flags & 1 != 0`. */
    predicate InUse() {
      flags % 2 == 1
    }

    /** The file name: the bytes before the first NUL. */
    function NameBytes(): seq<byte> {
      UpToNul(name)
    }

    predicate IsNamed(n: seq<byte>) {
      InUse() && NameBytes() == n
    }

    function WithName(n: seq<byte>): FileEntry {
      this.(name := NameFieldOf(name, n))
    }

    /** `flags |= 1` or `flags &= !1`, see `FlagBit`. */
    function WithInUse(used: bool): FileEntry {
      this.(flags := flags - flags % 2 + if used then 1 else 0)
    }
  }

  const EMPTY_ENTRY: FileEntry := FileEntry(Zeros(MAX_NAME_LEN), 0, 0, 0, 0, 0)

  /** Testing, setting and clearing bit 0. */
  lemma FlagBit(flags: u32)
    ensures And(flags, 1) != 0 <==> flags % 2 == 1
    ensures Or(flags, 1) == flags - flags % 2 + 1
    ensures And(flags, 0xFFFF_FFFE) == flags - flags % 2
  {
    assert Pow2(0) == 1;
    AndZeroIffBitClear(flags, 0);
    Pow2Of32();
    MaskRoundsDown(flags, 1, 32);
    assert Pow2(1) == 2;
    assert Or(flags / 2, 0) == flags / 2;
  }

  lemma Pow2Of32()
    ensures Pow2(32) == 0x1_0000_0000
  {
    assert Pow2(8) == 256;
    assert Pow2(16) == 0x1_0000;
    assert Pow2(24) == 0x100_0000;
  }

  function UpToNul(s: seq<byte>): seq<byte> {
    if s == [] || s[0] == 0 then [] else [s[0]] + UpToNul(s[1..])
  }

  /** `set_name`: at most 63 bytes are kept, then a NUL; what follows is left as it was. */
  function NameFieldOf(before: NameField, n: seq<byte>): NameField {
    var k := if |n| < MAX_NAME_LEN - 1 then |n| else MAX_NAME_LEN - 1;
    n[..k] + [0] + before[k + 1..]
  }

  predicate StorableName(n: seq<byte>) {
    |n| < MAX_NAME_LEN && 0 !in n
  }

  /** A name is found again exactly when it has at most 63 bytes and no NUL. */
  lemma NameKeptIff(field: NameField, n: seq<byte>)
    ensures UpToNul(NameFieldOf(field, n)) == n <==> StorableName(n)
  {
    var k := if |n| < MAX_NAME_LEN - 1 then |n| else MAX_NAME_LEN - 1;
    UpToNulOf(n[..k], field[k + 1..]);
    assert NameFieldOf(field, n) == n[..k] + [0] + field[k + 1..];
    UpToNulHasNone(NameFieldOf(field, n));
    if StorableName(n) {
      assert n[..k] == n;
    }
  }

  lemma {:induction false} UpToNulOf(n: seq<byte>, rest: seq<byte>)
    ensures |UpToNul(n + [0] + rest)| <= |n|
    ensures 0 !in n ==> UpToNul(n + [0] + rest) == n
  {
    var s := n + [0] + rest;
    if n != [] && n[0] != 0 {
      UpToNulOf(n[1..], rest);
      assert s[1..] == n[1..] + [0] + rest;
    }
  }

  lemma {:induction false} UpToNulHasNone(s: seq<byte>)
    ensures 0 !in UpToNul(s)
  {
    if s != [] && s[0] != 0 {
      UpToNulHasNone(s[1..]);
    }
  }

  // ---- On-disk form ----

  function EncodeEntry(e: FileEntry): (s: seq<byte>)
    ensures |s| == ENTRY_SIZE
  {
    e.name + ToLe(e.startBlock, 8) + ToLe(e.blockCount, 8) + ToLe(e.byteLength, 8) + ToLe(e.flags, 4) + ToLe(e.reserved, 4)
  }

  function DecodeEntry(s: seq<byte>): FileEntry
    requires |s| == ENTRY_SIZE
  {
    Pow256OfWords();
    FileEntry(s[..64], WordAt(s, 64), WordAt(s, 72), WordAt(s, 80), FromLe(s[88..92]), FromLe(s[92..96]))
  }

  /** The fields stand at their offsets, the name as it is and the numbers little-endian. */
  lemma EntryLayout(e: FileEntry)
    ensures var s := EncodeEntry(e);
            && s[..64] == e.name && FromLe(s[64..72]) == e.startBlock && FromLe(s[72..80]) == e.blockCount
            && FromLe(s[80..88]) == e.byteLength && FromLe(s[88..92]) == e.flags && FromLe(s[92..96]) == e.reserved
  {
    Pow256OfWords();
    SixParts(e.name, ToLe(e.startBlock, 8), ToLe(e.blockCount, 8), ToLe(e.byteLength, 8), ToLe(e.flags, 4), ToLe(e.reserved, 4));
    FromLeToLe(e.startBlock, 8);
    FromLeToLe(e.blockCount, 8);
    FromLeToLe(e.byteLength, 8);
    FromLeToLe(e.flags, 4);
    FromLeToLe(e.reserved, 4);
    hide ToLe, FromLe;
  }

  lemma DecodeEncodedEntry(e: FileEntry)
    ensures DecodeEntry(EncodeEntry(e)) == e
  {
    EntryLayout(e);
    hide EncodeEntry, FromLe;
  }

  /** The parts of an entry are at their offsets. */
  lemma SixParts(a: seq<byte>, b: seq<byte>, c: seq<byte>, d: seq<byte>, e: seq<byte>, f: seq<byte>)
    requires |a| == 64 && |b| == |c| == |d| == 8 && |e| == |f| == 4
    ensures var s := a + b + c + d + e + f;
            && s[..64] == a && s[64..72] == b && s[72..80] == c && s[80..88] == d && s[88..92] == e && s[92..96] == f
  {
    FirstParts(a, b, c, d + e + f);
    LastParts(a + b + c, d, e, f);
    assert a + b + c + (d + e + f) == a + b + c + d + e + f;
  }

  lemma FirstParts(a: seq<byte>, b: seq<byte>, c: seq<byte>, rest: seq<byte>)
    requires |a| == 64 && |b| == |c| == 8
    ensures var s := a + b + c + rest; s[..64] == a && s[64..72] == b && s[72..80] == c
  {
  }

  lemma LastParts(front: seq<byte>, d: seq<byte>, e: seq<byte>, f: seq<byte>)
    requires |front| == 80 && |d| == 8 && |e| == |f| == 4
    ensures var s := front + d + e + f; s[80..88] == d && s[88..92] == e && s[92..96] == f
  {
  }

  function EncodeTable(entries: seq<FileEntry>): (s: seq<byte>)
    ensures |s| == ENTRY_SIZE * |entries|
  {
    if entries == [] then []
    else EncodeTable(entries[..|entries| - 1]) + EncodeEntry(entries[|entries| - 1])
  }

  function DecodeTable(s: seq<byte>): (entries: seq<FileEntry>)
    requires |s| % ENTRY_SIZE == 0
    ensures |s| == ENTRY_SIZE * |entries|
  {
    if s == [] then []
    else DecodeTable(s[..|s| - ENTRY_SIZE]) + [DecodeEntry(s[|s| - ENTRY_SIZE..])]
  }

  lemma {:induction false} DecodeEncodedTable(entries: seq<FileEntry>)
    ensures DecodeTable(EncodeTable(entries)) == entries
  {
    hide EncodeEntry, DecodeEntry;
    if entries != [] {
      var n := |entries| - 1;
      var s := EncodeTable(entries);
      DecodeEncodedTable(entries[..n]);
      DecodeEncodedEntry(entries[n]);
      assert s[..|s| - ENTRY_SIZE] == EncodeTable(entries[..n]);
      assert s[|s| - ENTRY_SIZE..] == EncodeEntry(entries[n]);
    }
  }

  lemma DecodeNone(data: seq<byte>)
    ensures DecodeTable(data[..0]) == []
  {
  }

  lemma DecodeMore(data: seq<byte>, i: nat)
    requires ENTRY_SIZE * i + ENTRY_SIZE <= |data|
    ensures DecodeTable(data[..ENTRY_SIZE * (i + 1)])
            == DecodeTable(data[..ENTRY_SIZE * i]) + [DecodeEntry(data[ENTRY_SIZE * i..ENTRY_SIZE * i + ENTRY_SIZE])]
  {
    hide DecodeEntry;
    var n := ENTRY_SIZE * i;
    var longer := data[..n + ENTRY_SIZE];
    assert longer[..n] == data[..n] && longer[n..] == data[n..n + ENTRY_SIZE];
  }

  lemma ZerosAreEmptyEntry()
    ensures DecodeEntry(Zeros(ENTRY_SIZE)) == EMPTY_ENTRY && EncodeEntry(EMPTY_ENTRY) == Zeros(ENTRY_SIZE)
  {
    ZeroLe(8);
    ZeroLe(4);
    var e := EncodeEntry(EMPTY_ENTRY);
    assert forall i :: 0 <= i < ENTRY_SIZE ==> e[i] == 0;
    assert e == Zeros(ENTRY_SIZE);
    DecodeEncodedEntry(EMPTY_ENTRY);
  }

  lemma {:induction false} ZeroLe(k: nat)
    ensures ToLe(0, k) == Zeros(k)
  {
    if k > 0 {
      ZeroLe(k - 1);
    }
  }

  ghost predicate TableOnDisk(disk: seq<byte>, at: nat, entries: seq<FileEntry>) {
    at + ENTRY_SIZE * |entries| <= |disk| && disk[at..at + ENTRY_SIZE * |entries|] == EncodeTable(entries)
  }

  // ---- The table ----

  datatype Found = NotFound | FoundAt(index: nat)

  class FileTable {
    const entries: array<FileEntry>
    const fileTableLba: nat
    const blockSize: nat
    var dirty: bool

    ghost predicate Valid()
    {
      entries.Length == MAX_ENTRIES && blockSize >= TABLE_SIZE
    }

    /** An empty table. */
    constructor (fileTableLba: nat, blockSize: nat)
      requires blockSize >= TABLE_SIZE
      ensures Valid() && fresh(entries) && !dirty
      ensures this.fileTableLba == fileTableLba && this.blockSize == blockSize
      ensures entries[..] == seq(MAX_ENTRIES, _ => EMPTY_ENTRY)
    {
      this.fileTableLba, this.blockSize, this.dirty := fileTableLba, blockSize, false;
      this.entries := new FileEntry[MAX_ENTRIES](_ => EMPTY_ENTRY);
    }

    /** Read the table from its block; `null` exactly when the block is not on the disk or something was refused. */
    static method Load(dev: RamDisk, fileTableLba: nat, blockSize: nat) returns (r: FileTable?)
      requires dev.Valid() && dev.blockSize == blockSize >= TABLE_SIZE
      modifies dev.env
      ensures r != null <==> fileTableLba * blockSize + blockSize <= |dev.data| && dev.env.refused == old(dev.env.refused)
      ensures old(dev.env.refused).UpTo(dev.env.refused)
      ensures r != null ==> fresh(r) && r.Valid() && fresh(r.entries) && !r.dirty
      ensures r != null ==> r.fileTableLba == fileTableLba && r.blockSize == blockSize
      ensures r != null ==>
                && fileTableLba * blockSize + TABLE_SIZE <= |dev.data|
                && r.entries[..] == DecodeTable(dev.data[fileTableLba * blockSize..fileTableLba * blockSize + TABLE_SIZE])
    {
      var buf := dev.env.AllocDma(blockSize);
      if buf == null {
        return null;
      }
      var ok := dev.ReadBlocks(fileTableLba, 1, buf);
      if !ok {
        return null;
      }
      var table := new FileTable(fileTableLba, blockSize);
      table.Decode(buf[..]);
      assert buf[..][..TABLE_SIZE] == dev.data[fileTableLba * blockSize..fileTableLba * blockSize + TABLE_SIZE] by {
        assert buf[..blockSize] == buf[..];
      }
      return table;
    }

    method Decode(data: seq<byte>)
      requires Valid() && |data| >= TABLE_SIZE
      modifies entries
      ensures entries[..] == DecodeTable(data[..TABLE_SIZE])
    {
      hide DecodeEntry, DecodeTable;
      DecodeNone(data);
      for i := 0 to MAX_ENTRIES
        invariant entries[..i] == DecodeTable(data[..ENTRY_SIZE * i])
      {
        var offset := i * ENTRY_SIZE;
        if offset + ENTRY_SIZE <= |data| {
          entries[i] := DecodeEntry(data[offset..offset + ENTRY_SIZE]);
        }
        DecodeMore(data, i);
      }
    }

    /** Write the table to its block if it is dirty. */
    method Flush(dev: RamDisk) returns (ok: bool)
      requires Valid() && dev.Valid() && dev.blockSize == blockSize
      modifies this`dirty, dev, dev.env
      ensures fileTableLba * blockSize + blockSize <= |dev.data| ==> (ok <==> dev.env.refused == old(dev.env.refused))
      ensures old(dev.env.refused).UpTo(dev.env.refused) && (ok ==> dev.env.refused == old(dev.env.refused))
      ensures dev.Valid() && dev.flushCount == old(dev.flushCount)
      ensures WroteOnly(old(dev.trace), dev.trace, fileTableLba * blockSize, (fileTableLba + 1) * blockSize)
      ensures !old(dirty) ==> ok && !dirty && dev.trace == old(dev.trace) && dev.data == old(dev.data)
      ensures ok ==> !dirty
      ensures ok && old(dirty) ==> TableOnDisk(dev.data, fileTableLba * blockSize, entries[..])
      ensures !ok ==> dirty
    {
      hide EncodeTable, EncodeEntry, TableOnDisk, FitsDisk, Visible, Splice;
      if !dirty {
        return true;
      }
      var buf := dev.env.AllocDma(blockSize);
      if buf == null {
        return false;
      }
      Encode(buf);
      ok := dev.WriteBlocks(fileTableLba, 1, buf);
      if ok {
        dirty := false;
        StoredTable(old(dev.data), fileTableLba * blockSize, buf[..], entries[..]);
        assert buf[..blockSize] == buf[..];
      }
    }

    method Encode(buf: array<byte>)
      requires Valid() && buf.Length == blockSize
      modifies buf
      ensures buf[..TABLE_SIZE] == EncodeTable(entries[..])
    {
      forall i | 0 <= i < buf.Length {
        buf[i] := 0;
      }
      for i := 0 to MAX_ENTRIES
        invariant buf[..ENTRY_SIZE * i] == EncodeTable(entries[..i])
      {
        EncodeOne(buf, i);
      }
      assert entries[..MAX_ENTRIES] == entries[..];
    }

    method EncodeOne(buf: array<byte>, i: nat)
      requires Valid() && buf.Length == blockSize && i < MAX_ENTRIES
      requires buf[..ENTRY_SIZE * i] == EncodeTable(entries[..i])
      modifies buf
      ensures buf[..ENTRY_SIZE * (i + 1)] == EncodeTable(entries[..i + 1])
    {
      var offset := i * ENTRY_SIZE;
      ghost var before, encoded := buf[..offset], EncodeTable(entries[..i]);
      var bytes := EncodeEntry(entries[i]);
      if offset + ENTRY_SIZE <= buf.Length {
        forall k | 0 <= k < ENTRY_SIZE {
          buf[offset + k] := bytes[k];
        }
      }
      assert buf[..offset + ENTRY_SIZE] == before + bytes;
      assert entries[..i] == old(entries[..i]);
      assert entries[..i + 1][..i] == entries[..i];
      assert EncodeTable(entries[..i + 1]) == encoded + bytes;
      assert buf[..ENTRY_SIZE * (i + 1)] == encoded + bytes;
    }

    /** The first in-use entry with this name. */
    method Lookup(name: seq<byte>) returns (r: Found)
      requires Valid()
      ensures r.FoundAt? ==>
                && r.index < MAX_ENTRIES && entries[r.index].IsNamed(name)
                && forall j :: 0 <= j < r.index ==> !entries[j].IsNamed(name)
      ensures r.NotFound? ==> forall j :: 0 <= j < MAX_ENTRIES ==> !entries[j].IsNamed(name)
    {
      for i := 0 to MAX_ENTRIES
        invariant forall j :: 0 <= j < i ==> !entries[j].IsNamed(name)
      {
        FlagBit(entries[i].flags);
        if And(entries[i].flags, 1) != 0 && entries[i].NameBytes() == name {
          return FoundAt(i);
        }
      }
      return NotFound;
    }

    /** Fill the first free slot. */
    method Create(name: seq<byte>, startBlock: u64, blockCount: u64) returns (r: Found)
      requires Valid()
      modifies this`dirty, entries
      ensures r.FoundAt? ==>
                && r.index < MAX_ENTRIES && !old(entries[r.index]).InUse() && dirty
                && (forall j :: 0 <= j < r.index ==> entries[j].InUse())
                && entries[..] == old(entries[..])[r.index := NewEntry(old(entries[r.index]), name, startBlock, blockCount)]
      ensures r.NotFound? ==>
                && entries[..] == old(entries[..]) && dirty == old(dirty)
                && forall j :: 0 <= j < MAX_ENTRIES ==> entries[j].InUse()
    {
      for i := 0 to MAX_ENTRIES
        invariant entries[..] == old(entries[..]) && dirty == old(dirty)
        invariant forall j :: 0 <= j < i ==> entries[j].InUse()
      {
        FlagBit(entries[i].flags);
        if And(entries[i].flags, 1) == 0 {
          var entry := entries[i].WithName(name).(startBlock := startBlock, blockCount := blockCount, byteLength := 0);
          entries[i] := entry.(flags := Or(entry.flags, 1));
          dirty := true;
          return FoundAt(i);
        }
      }
      return NotFound;
    }

    /** Empty a slot. */
    method Delete(index: nat) returns (deleted: bool)
      requires Valid()
      modifies this`dirty, entries
      ensures deleted <==> index < MAX_ENTRIES && old(entries[..])[index].InUse()
      ensures deleted ==> entries[..] == old(entries[..])[index := EMPTY_ENTRY] && dirty
      ensures !deleted ==> entries[..] == old(entries[..]) && dirty == old(dirty)
    {
      if index >= MAX_ENTRIES || !entries[index].InUse() {
        return false;
      }
      entries[index] := EMPTY_ENTRY;
      dirty := true;
      return true;
    }

    /** Whether the entry may be changed by the caller; handing it out marks the table dirty. */
    method GetMut(index: nat) returns (ok: bool)
      requires Valid()
      modifies this`dirty
      ensures ok <==> index < MAX_ENTRIES && entries[..][index].InUse()
      ensures dirty == (old(dirty) || ok)
    {
      ok := index < MAX_ENTRIES && entries[index].InUse();
      if ok {
        dirty := true;
      }
    }
  }

  function NewEntry(slot: FileEntry, name: seq<byte>, startBlock: u64, blockCount: u64): FileEntry {
    slot.WithName(name).(startBlock := startBlock, blockCount := blockCount, byteLength := 0).WithInUse(true)
  }

  lemma StoredTable(disk: seq<byte>, at: nat, image: seq<byte>, entries: seq<FileEntry>)
    requires at + |image| <= |disk| && ENTRY_SIZE * |entries| <= |image|
    requires image[..ENTRY_SIZE * |entries|] == EncodeTable(entries)
    ensures TableOnDisk(Splice(disk, at, image), at, entries)
  {
    hide EncodeTable, EncodeEntry, Splice;
    var n := ENTRY_SIZE * |entries|;
    PrefixOfSplice(disk, at, image, n);
    StoredAt(Splice(disk, at, image), at, n, EncodeTable(entries), entries);
  }

  lemma StoredAt(disk: seq<byte>, at: nat, n: nat, bytes: seq<byte>, entries: seq<FileEntry>)
    requires n == ENTRY_SIZE * |entries| && at + n <= |disk| && disk[at..at + n] == bytes == EncodeTable(entries)
    ensures TableOnDisk(disk, at, entries)
  {
    hide EncodeTable;
  }

  lemma PrefixOfSplice(disk: seq<byte>, at: nat, image: seq<byte>, n: nat)
    requires at + |image| <= |disk| && n <= |image|
    ensures Splice(disk, at, image)[at..at + n] == image[..n]
  {
    var disk' := Splice(disk, at, image);
    SliceOfSlice(disk', at, at + |image|, 0, n);
    hide Splice;
    assert disk'[at..at + |image|] == image && image[0..n] == image[..n];
  }
}
