/** The directory table in memory, fetched from and written back to its file. */
module Directories {
  import opened Bytes
  import opened DiskLayout
  import opened OpenFiles

  /** Entry `i` is in use and answers to `name`. */
  ghost predicate ListedAt(t: Table, i: int, name: seq<byte>) {
    0 <= i < 10 && t[i].inUse && Key(t[i].name) == Key(name)
  }

  ghost predicate Listed(t: Table, name: seq<byte>) {
    exists i :: ListedAt(t, i, name)
  }

  ghost predicate HasFree(t: Table) {
    exists k :: 0 <= k < 10 && !t[k].inUse
  }

  class Directory {
    const table: array<DirectoryEntry>

    ghost predicate Valid() {
      table.Length == NUM_DIR_ENTRIES
    }

    ghost function Entries(): Table
      requires Valid()
      reads table
    {
      table[..]
    }

    /** An empty directory; the other fields of its entries are left as found. */
    constructor ()
      ensures Valid() && fresh(table)
      ensures forall i :: 0 <= i < 10 ==> !Entries()[i].inUse
    {
      table := new DirectoryEntry[NUM_DIR_ENTRIES];
      new;
      for i := 0 to NUM_DIR_ENTRIES
        invariant forall k :: 0 <= k < i ==> !table[k].inUse
      {
        table[i] := table[i].(inUse := false);
      }
    }

    method FetchFrom(file: OpenFile)
      requires Valid() && file.Valid() && file.hdr.numBytes == DIRECTORY_FILE_SIZE
      modifies table
      ensures Entries() == DecodeTable(DiskLayout.Contents(file.disk.sectors, file.hdr.Value()))
    {
      hide DecodeTable, FileByte;
      var raw := new byte[DIRECTORY_FILE_SIZE];
      var n := file.ReadAt(raw, 0, DIRECTORY_FILE_SIZE, 0);
      assert raw[..] == DiskLayout.Contents(file.disk.sectors, file.hdr.Value());
      var t := DecodeTable(raw[..]);
      SetTable(t);
    }

    method SetTable(t: Table)
      requires Valid()
      modifies table
      ensures Entries() == t
    {
      forall i | 0 <= i < NUM_DIR_ENTRIES {
        table[i] := t[i];
      }
    }

    method WriteBack(file: OpenFile)
      requires Valid() && file.Valid() && file.hdr.numBytes == DIRECTORY_FILE_SIZE
      modifies file.disk
      ensures DecodeTable(DiskLayout.Contents(file.disk.sectors, file.hdr.Value())) == Entries()
      ensures forall s :: 0 <= s < NUM_SECTORS && s !in Blocks(file.hdr.Value()) ==>
                file.disk.sectors[s] == old(file.disk.sectors)[s]
    {
      hide DecodeTable, EncodeTable, FileByte;
      var raw := EncodeTable(table[..]);
      var n := file.WriteAt(raw, DIRECTORY_FILE_SIZE, 0);
      assert raw[..n] == raw;
      assert DiskLayout.Contents(file.disk.sectors, file.hdr.Value()) == raw;
      TableRoundTrip(table[..]);
    }

    /** The first entry in use whose name matches in its first nine characters. */
    method FindIndex(name: seq<byte>) returns (i: int)
      requires Valid()
      ensures i == -1 <==> !Listed(Entries(), name)
      ensures i != -1 ==> ListedAt(Entries(), i, name) && forall k :: 0 <= k < i ==> !ListedAt(Entries(), k, name)
    {
      for k := 0 to NUM_DIR_ENTRIES
        invariant forall j :: 0 <= j < k ==> !ListedAt(Entries(), j, name)
      {
        StrnEqualIsSameKey(table[k].name, name, 0, FILE_NAME_MAX_LEN);
        if table[k].inUse && StrnEqual(table[k].name, name, 0, FILE_NAME_MAX_LEN) {
          assert ListedAt(Entries(), k, name);
          return k;
        }
      }
      return -1;
    }

    method Find(name: seq<byte>) returns (sector: int)
      requires Valid()
      ensures !Listed(Entries(), name) ==> sector == -1
      ensures Listed(Entries(), name) ==> exists i :: ListedAt(Entries(), i, name) && sector == Entries()[i].sector
    {
      var i := FindIndex(name);
      if i != -1 {
        return table[i].sector;
      }
      return -1;
    }

    /** Takes the first free entry; fails if the name is listed or none is free. */
    method Add(name: seq<byte>, newSector: int32) returns (ok: bool)
      requires Valid()
      modifies table
      ensures ok <==> !Listed(old(Entries()), name) && HasFree(old(Entries()))
      ensures !ok ==> Entries() == old(Entries())
      ensures ok ==> EntryAdded(old(Entries()), Entries(), name, newSector)
    {
      var i := FindIndex(name);
      if i != -1 {
        return false;
      }
      for k := 0 to NUM_DIR_ENTRIES
        invariant forall j :: 0 <= j < k ==> table[j].inUse
        invariant table[..] == old(table[..])
      {
        if !table[k].inUse {
          KeyOfStrncpy(table[k].name, name);
          table[k] := DirectoryEntry(true, newSector, Strncpy(table[k].name, name, FILE_NAME_MAX_LEN), table[k].pad);
          assert AddedAt(old(Entries()), Entries(), k, name, newSector);
          return true;
        }
      }
      return false;
    }

    method Remove(name: seq<byte>) returns (ok: bool)
      requires Valid()
      modifies table
      ensures ok <==> Listed(old(Entries()), name)
      ensures !ok ==> Entries() == old(Entries())
      ensures ok ==> exists i :: 0 <= i < 10 && RemovedAt(old(Entries()), Entries(), i, name)
    {
      var i := FindIndex(name);
      if i == -1 {
        return false;
      }
      table[i] := table[i].(inUse := false);
      assert RemovedAt(old(Entries()), Entries(), i, name);
      return true;
    }
  }

  /** Entry `i`, the first one free in `t`, now lists `name` at `sector`; the rest is as it was. */
  ghost predicate AddedAt(t: Table, t': Table, i: int, name: seq<byte>, sector: int32)
    requires 0 <= i < 10
  {
    && !t[i].inUse && (forall j :: 0 <= j < i ==> t[j].inUse)
    && t'[i].inUse && t'[i].sector == sector && Key(t'[i].name) == Key(name)
    && (forall j :: 0 <= j < 10 && j != i ==> t'[j] == t[j])
  }

  ghost predicate EntryAdded(t: Table, t': Table, name: seq<byte>, sector: int32) {
    exists i :: 0 <= i < 10 && AddedAt(t, t', i, name, sector)
  }

  /** Entry `i`, which listed `name` in `t`, is free in `t'`; the rest is as it was. */
  ghost predicate RemovedAt(t: Table, t': Table, i: int, name: seq<byte>)
    requires 0 <= i < 10
  {
    && ListedAt(t, i, name)
    && !t'[i].inUse
    && (forall j :: 0 <= j < 10 && j != i ==> t'[j] == t[j])
  }
}
