/**
 * `directory.c`: looking a name up in a directory by scanning its entries
 * block by block.
 *
 * A directory entry is 16 bytes: a 16-bit inumber and a 14-byte name. The
 * name ends at its first NUL byte; a name that fills all 14 bytes has no NUL
 * and is taken to be those 14 bytes (the source's `strcmp` would read past
 * the entry there).
 */
module V6Directory {
  import opened Wrappers
  import opened V6Inode
  import opened V6File

  const DIRENT_SIZE: nat := 16
  const NAME_SIZE: nat := 14

  datatype DirEnt = DirEnt(inumber: u16, name: seq<byte>)

  /** The bytes of a raw name up to its first NUL. */
  function CName(raw: seq<byte>): (s: seq<byte>)
    ensures |s| <= |raw|
  {
    if raw == [] || raw[0] == 0 then [] else [raw[0]] + CName(raw[1..])
  }

  /** The name is the longest NUL-free prefix of the raw bytes. */
  lemma {:induction false} CNameIs(raw: seq<byte>)
    ensures CName(raw) == raw[..|CName(raw)|]
    ensures forall k :: 0 <= k < |CName(raw)| ==> raw[k] != 0
    ensures |CName(raw)| < |raw| ==> raw[|CName(raw)|] == 0
  {
    if raw != [] && raw[0] != 0 {
      CNameIs(raw[1..]);
    }
  }

  /** Entry `k` of a directory block. */
  function EntryAt(data: seq<byte>, k: nat): (e: DirEnt)
    requires |data| == SECTOR_SIZE && k < SECTOR_SIZE / DIRENT_SIZE
    ensures |e.name| == NAME_SIZE
  {
    var at := k * DIRENT_SIZE;
    DirEnt(Word(data, at), data[at + 2 .. at + DIRENT_SIZE])
  }

  /** `strcmp(d_name, name) == 0`. */
  predicate Matches(e: DirEnt, name: seq<byte>) {
    CName(e.name) == name
  }

  /** The first of the entries `j..count` of a block whose name is `name`. */
  function FindInBlock(data: seq<byte>, count: nat, name: seq<byte>, j: nat): (r: Option<DirEnt>)
    requires |data| == SECTOR_SIZE && count <= SECTOR_SIZE / DIRENT_SIZE
    decreases count - j
  {
    if j >= count then None
    else if Matches(EntryAt(data, j), name) then Some(EntryAt(data, j))
    else FindInBlock(data, count, name, j + 1)
  }

  /** Entries are read from the valid bytes of a block only. */
  function EntryCount(b: Block): nat {
    b.valid / DIRENT_SIZE
  }

  /**
   * The first match in blocks `i..` in block then slot order; `None` when
   * no entry matches or a block cannot be read before a match is found.
   */
  function ScanBlocks(bs: seq<Option<Block>>, name: seq<byte>, i: nat): (r: Option<DirEnt>)
    requires AllSized(bs)
    decreases |bs| - i
  {
    if i >= |bs| then None
    else
      match bs[i]
      case None => None
      case Some(b) =>
        match FindInBlock(b.data, EntryCount(b), name, 0)
        case Some(e) => Some(e)
        case None => ScanBlocks(bs, name, i + 1)
  }

  /**
   * What `directory_findname` finds: nothing when the inode cannot be
   * fetched, is not a directory or is empty; otherwise the first match in
   * its `(size - 1) / 512 + 1` blocks.
   */
  function FindEntry(disk: Disk, name: seq<byte>, dir: int): (r: Option<DirEnt>)
    ensures IGet(disk, dir).None? ==> r.None?
    ensures IGet(disk, dir).Some? && !IsDirectory(IGet(disk, dir).value) ==> r.None?
    ensures IGet(disk, dir).Some? && Size(IGet(disk, dir).value) == 0 ==> r.None?
  {
    match IGet(disk, dir)
    case None => None
    case Some(ino) =>
      if !IsDirectory(ino) then None
      else
        var size := Size(ino);
        if size == 0 then None else ScanBlocks(Blocks(disk, dir, (size - 1) / SECTOR_SIZE + 1), name, 0)
  }

  /** A non-empty directory is scanned over exactly the blocks that hold its bytes. */
  lemma ScannedBlocks(size: nat)
    requires size > 0
    ensures (size - 1) / SECTOR_SIZE + 1 == NumBlocks(size)
  {
  }

  /** Entry `k` is the first from `j` on whose name is `name`. */
  predicate FirstMatch(data: seq<byte>, name: seq<byte>, j: nat, k: nat)
    requires |data| == SECTOR_SIZE && k < SECTOR_SIZE / DIRENT_SIZE
  {
    Matches(EntryAt(data, k), name) && forall l :: j <= l < k ==> !Matches(EntryAt(data, l), name)
  }

  /** A match in a block is the first entry from `j` on with that name; no match means no entry has it. */
  lemma {:induction false} FindInBlockFirst(data: seq<byte>, count: nat, name: seq<byte>, j: nat)
    requires |data| == SECTOR_SIZE && count <= SECTOR_SIZE / DIRENT_SIZE
    ensures FindInBlock(data, count, name, j).Some? ==>
      exists k :: j <= k < count && FindInBlock(data, count, name, j).value == EntryAt(data, k) && FirstMatch(data, name, j, k)
    ensures FindInBlock(data, count, name, j).None? ==>
      forall k :: j <= k < count ==> !Matches(EntryAt(data, k), name)
    decreases count - j
  {
    if j < count {
      if Matches(EntryAt(data, j), name) {
        assert FirstMatch(data, name, j, j);
      } else {
        FindInBlockFirst(data, count, name, j + 1);
        if FindInBlock(data, count, name, j + 1).Some? {
          var k :| j + 1 <= k < count && FindInBlock(data, count, name, j + 1).value == EntryAt(data, k) &&
            FirstMatch(data, name, j + 1, k);
          assert FirstMatch(data, name, j, k);
        }
      }
    }
  }

  /** The name is in block `b` among its valid entries. */
  predicate InBlock(b: Block, name: seq<byte>)
    requires Sized(b)
  {
    exists k :: 0 <= k < EntryCount(b) && Matches(EntryAt(b.data, k), name)
  }

  /**
   * When blocks `i..` all read, the scan fails exactly when none of their
   * valid entries has the name, and a match it returns has the name.
   */
  lemma {:induction false} ScanFindsAny(bs: seq<Option<Block>>, name: seq<byte>, i: nat)
    requires AllSized(bs) && forall k :: i <= k < |bs| ==> bs[k].Some?
    ensures ScanBlocks(bs, name, i).None? <==> forall k :: i <= k < |bs| ==> !InBlock(bs[k].value, name)
    ensures ScanBlocks(bs, name, i).Some? ==> Matches(ScanBlocks(bs, name, i).value, name)
    decreases |bs| - i
  {
    if i < |bs| {
      var b := bs[i].value;
      FindInBlockFirst(b.data, EntryCount(b), name, 0);
      ScanFindsAny(bs, name, i + 1);
      if FindInBlock(b.data, EntryCount(b), name, 0).Some? {
        assert InBlock(b, name);
      } else {
        assert !InBlock(b, name);
      }
    }
  }

  /**
   * `directory_findname`: 0 and the entry `FindEntry` describes, or -1 and
   * `dirEnt` as it was.
   */
  method FindName(disk: Disk, name: seq<byte>, dirinumber: int, dirEnt: DirEnt) returns (r: int, ent: DirEnt)
    ensures r == 0 || r == -1
    ensures r == 0 <==> FindEntry(disk, name, dirinumber).Some?
    ensures r == 0 ==> ent == FindEntry(disk, name, dirinumber).value
    ensures r == -1 ==> ent == dirEnt
  {
    ent := dirEnt;
    var node := IGet(disk, dirinumber);
    if node.None? {
      return -1, ent;
    }
    if !IsDirectory(node.value) {
      return -1, ent;
    }
    var dirSize := Size(node.value);
    if dirSize == 0 {
      return -1, ent;
    }
    var totalBlocks := (dirSize - 1) / SECTOR_SIZE + 1;
    ghost var bs := Blocks(disk, dirinumber, totalBlocks);
    assert FindEntry(disk, name, dirinumber) == ScanBlocks(bs, name, 0);
    var i := 0;
    while i < totalBlocks
      invariant 0 <= i <= totalBlocks
      invariant FindEntry(disk, name, dirinumber) == ScanBlocks(bs, name, i)
    {
      var entries := GetBlock(disk, dirinumber, i);
      assert entries == bs[i];
      if entries.None? {
        return -1, ent;
      }
      var found := SearchBlock(entries.value, name);
      if found.Some? {
        return 0, found.value;
      }
      i := i + 1;
    }
    return -1, ent;
  }

  /** The inner loop of `directory_findname`: the valid entries of one block, in slot order. */
  method SearchBlock(b: Block, name: seq<byte>) returns (found: Option<DirEnt>)
    requires Sized(b)
    ensures found == FindInBlock(b.data, EntryCount(b), name, 0)
  {
    var count := EntryCount(b);
    var j := 0;
    while j < count
      invariant 0 <= j <= count
      invariant FindInBlock(b.data, count, name, 0) == FindInBlock(b.data, count, name, j)
    {
      var e := EntryAt(b.data, j);
      if CName(e.name) == name {
        return Some(e);
      }
      j := j + 1;
    }
    return None;
  }
}
