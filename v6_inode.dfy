/**
 * The Unix Version 6 disk layout and `inode.c`: fetching an inode, mapping a
 * file's block index to a disk sector, and the 24-bit file size.
 *
 * The disk image is a map from sector number to the 512 bytes of that
 * sector; a sector that is absent (or not 512 bytes long) is a failed read.
 * Multi-byte fields are little-endian, as the image is read on the host.
 */
module V6Inode {
  import opened Wrappers

  type byte = b: int | 0 <= b < 256
  type u16 = w: int | 0 <= w < 0x1_0000

  const SECTOR_SIZE: nat := 512
  const INODE_START_SECTOR: nat := 2
  const ROOT_INUMBER: nat := 1
  /** `sizeof(struct inode)`: mode (2), nlink, uid, gid, size0 (1 each), size1 (2), addr (16), atime (4), mtime (4). */
  const INODE_SIZE: nat := 32
  const INODES_PER_SECTOR: nat := 16
  /** Block numbers held by one indirect sector. */
  const ADDRS_PER_SECTOR: nat := 256
  /** `i_addr[0..7)` are singly indirect in a large file, `i_addr[7]` doubly indirect. */
  const INDIR_ADDR: nat := 7

  /**
   * Mode bits: allocated (0100000), large addressing (010000), and the
   * directory type (040000) within the two file-type bits (060000). The
   * mode is kept as a number and each mask test is read off its digits.
   */
  const IALLOC: nat := 0x8000
  const ILARG: nat := 0x1000
  const IFMT_SHIFT: nat := 0x2000
  const IFDIR_TYPE: nat := 2

  type Disk = map<int, seq<byte>>

  /**
   * `diskimg_readsector`: the 512 bytes of a sector, or a failed read. A
   * sector missing from the image or shorter than 512 bytes counts as a
   * failed read here; the C code accepts such a short read.
   */
  function ReadSector(disk: Disk, n: int): (r: Option<seq<byte>>)
    ensures r.Some? ==> |r.value| == SECTOR_SIZE && n in disk && r.value == disk[n]
    ensures r.None? ==> n !in disk || |disk[n]| != SECTOR_SIZE
  {
    if n in disk && |disk[n]| == SECTOR_SIZE then Some(disk[n]) else None
  }

  /** The little-endian 16-bit word at byte `i`. */
  function Word(b: seq<byte>, i: nat): (w: u16)
    requires i + 2 <= |b|
  {
    b[i] as int + 256 * (b[i + 1] as int)
  }

  datatype Inode = Inode(
    mode: u16, nlink: byte, uid: byte, gid: byte,
    size0: byte, size1: u16, addr: seq<u16>, atime: seq<u16>, mtime: seq<u16>)

  predicate WellFormed(ino: Inode) {
    |ino.addr| == 8 && |ino.atime| == 2 && |ino.mtime| == 2
  }

  /** `struct inode` laid out in 32 bytes. */
  function DecodeInode(b: seq<byte>): (ino: Inode)
    requires |b| == INODE_SIZE
    ensures WellFormed(ino)
  {
    Inode(
      Word(b, 0), b[2], b[3], b[4], b[5], Word(b, 6),
      [Word(b, 8), Word(b, 10), Word(b, 12), Word(b, 14), Word(b, 16), Word(b, 18), Word(b, 20), Word(b, 22)],
      [Word(b, 24), Word(b, 26)],
      [Word(b, 28), Word(b, 30)])
  }

  /** The sector that holds inode `inumber` (inumbers start at 1). */
  function InodeSector(inumber: int): int
    requires inumber >= 1
  {
    INODE_START_SECTOR + (inumber - 1) / INODES_PER_SECTOR
  }

  /** The slot of inode `inumber` within its sector. */
  function InodeSlot(inumber: int): int
    requires inumber >= 1
  {
    (inumber - 1) % INODES_PER_SECTOR
  }

  /**
   * Every inumber has its own place on disk: sixteen slots per sector from
   * sector 2 on, and the place gives the inumber back.
   */
  lemma InodePlace(inumber: int)
    requires inumber >= 1
    ensures InodeSector(inumber) >= INODE_START_SECTOR && 0 <= InodeSlot(inumber) < INODES_PER_SECTOR
    ensures (InodeSector(inumber) - INODE_START_SECTOR) * INODES_PER_SECTOR + InodeSlot(inumber) + 1 == inumber
  {
  }

  lemma InodePlaceInjective(i: int, j: int)
    requires i >= 1 && j >= 1 && i != j
    ensures InodeSector(i) != InodeSector(j) || InodeSlot(i) != InodeSlot(j)
  {
    InodePlace(i);
    InodePlace(j);
  }

  /**
   * `inode_iget`: the inode in its slot of the sector that holds it; `None`
   * exactly when that sector cannot be read. An inumber below 1 reads
   * outside the sector's slots in the source and is a failure here.
   */
  function IGet(disk: Disk, inumber: int): (r: Option<Inode>)
    ensures r.Some? ==> WellFormed(r.value)
  {
    if inumber < 1 then None
    else
      var slot := InodeSlot(inumber);
      match ReadSector(disk, InodeSector(inumber))
      case None => None
      case Some(s) => Some(DecodeInode(s[slot * INODE_SIZE .. slot * INODE_SIZE + INODE_SIZE]))
  }

  /**
   * `inode_iget` fails exactly when the inumber is below 1 or the sector
   * that holds it cannot be read; otherwise it returns the inode decoded
   * from the 32 bytes of its slot.
   */
  lemma IGetIs(disk: Disk, inumber: int)
    ensures IGet(disk, inumber).Some? <==> inumber >= 1 && ReadSector(disk, InodeSector(inumber)).Some?
    ensures IGet(disk, inumber).Some? ==>
      var s := disk[InodeSector(inumber)]; var at := InodeSlot(inumber) * INODE_SIZE;
      IGet(disk, inumber).value == DecodeInode(s[at .. at + INODE_SIZE])
  {
  }

  /** The 24-bit size and the block addresses as they sit in the inode's bytes. */
  lemma DecodeInodeFields(b: seq<byte>)
    requires |b| == INODE_SIZE
    ensures DecodeInode(b).size0 == b[5] && DecodeInode(b).size1 == b[6] as int + 256 * (b[7] as int)
    ensures forall k :: 0 <= k < 8 ==> DecodeInode(b).addr[k] == b[8 + 2 * k] as int + 256 * (b[9 + 2 * k] as int)
  {
  }

  /** `i_mode & ILARG`, read off the mode as a number. */
  predicate IsLarge(ino: Inode) {
    (ino.mode / ILARG) % 2 == 1
  }

  /** `(i_mode & IFMT) == IFDIR`. */
  predicate IsDirectory(ino: Inode) {
    (ino.mode / IFMT_SHIFT) % 4 == IFDIR_TYPE
  }

  /** `i_mode & IALLOC`. */
  predicate Allocated(ino: Inode) {
    ino.mode >= IALLOC
  }

  /** Entry `k` of an indirect sector. */
  function AddrAt(s: seq<byte>, k: nat): u16
    requires |s| == SECTOR_SIZE && k < ADDRS_PER_SECTOR
  {
    Word(s, 2 * k)
  }

  /** The first block number that the doubly indirect sector covers. */
  const DOUBLE_START: nat := 1792

  /**
   * `inode_indexlookup`: the disk sector that holds block `blockNum` of the
   * file, or -1. A small file names its eight blocks directly; a large one
   * goes through `i_addr[blockNum / 256]` for its first 1792 blocks and
   * through the doubly indirect `i_addr[7]` after that. An index outside
   * the arrays the source reads is a failure here.
   */
  function IndexLookup(disk: Disk, ino: Inode, blockNum: int): (r: int)
    requires WellFormed(ino)
    ensures -1 <= r < 0x1_0000
  {
    if !IsLarge(ino) then
      if 0 <= blockNum < 8 then ino.addr[blockNum] else -1
    else if blockNum < 0 then -1
    else if blockNum < DOUBLE_START then
      match ReadSector(disk, ino.addr[blockNum / ADDRS_PER_SECTOR])
      case None => -1
      case Some(s) => AddrAt(s, blockNum % ADDRS_PER_SECTOR)
    else
      var b := blockNum - DOUBLE_START;
      if b / ADDRS_PER_SECTOR >= ADDRS_PER_SECTOR then -1
      else
        match ReadSector(disk, ino.addr[INDIR_ADDR])
        case None => -1
        case Some(first) =>
          match ReadSector(disk, AddrAt(first, b / ADDRS_PER_SECTOR))
          case None => -1
          case Some(second) => AddrAt(second, b % ADDRS_PER_SECTOR)
  }

  // Which sectors a lookup reads, layout by layout: two disks that agree on
  // those sectors give the same answer, whatever else they hold.

  /** A small file's lookup reads no sector at all. */
  lemma DirectBlocks(d1: Disk, d2: Disk, ino: Inode, blockNum: int)
    requires WellFormed(ino) && !IsLarge(ino)
    ensures IndexLookup(d1, ino, blockNum) == IndexLookup(d2, ino, blockNum)
    ensures 0 <= blockNum < 8 ==> IndexLookup(d1, ino, blockNum) == ino.addr[blockNum]
  {
  }

  /** A large file's block below 1792 reads only the sector `i_addr[blockNum / 256]`. */
  lemma SinglyIndirect(d1: Disk, d2: Disk, ino: Inode, blockNum: int)
    requires WellFormed(ino) && IsLarge(ino) && 0 <= blockNum < DOUBLE_START
    requires ReadSector(d1, ino.addr[blockNum / ADDRS_PER_SECTOR]) == ReadSector(d2, ino.addr[blockNum / ADDRS_PER_SECTOR])
    ensures IndexLookup(d1, ino, blockNum) == IndexLookup(d2, ino, blockNum)
  {
  }

  /**
   * A large file's block at or past 1792 reads only the sector `i_addr[7]`
   * and the sector named by entry `(blockNum - 1792) / 256` of it.
   */
  lemma DoublyIndirect(d1: Disk, d2: Disk, ino: Inode, blockNum: int)
    requires WellFormed(ino) && IsLarge(ino)
    requires DOUBLE_START <= blockNum < DOUBLE_START + ADDRS_PER_SECTOR * ADDRS_PER_SECTOR
    requires ReadSector(d1, ino.addr[INDIR_ADDR]) == ReadSector(d2, ino.addr[INDIR_ADDR])
    requires ReadSector(d1, ino.addr[INDIR_ADDR]).Some? ==>
      var n := AddrAt(ReadSector(d1, ino.addr[INDIR_ADDR]).value, (blockNum - DOUBLE_START) / ADDRS_PER_SECTOR);
      ReadSector(d1, n) == ReadSector(d2, n)
    ensures IndexLookup(d1, ino, blockNum) == IndexLookup(d2, ino, blockNum)
  {
  }

  /** The blocks of a large file below 1792 and the ones past it use distinct indirect slots. */
  lemma IndirectSlots(blockNum: int)
    requires 0 <= blockNum < DOUBLE_START + ADDRS_PER_SECTOR * ADDRS_PER_SECTOR
    ensures blockNum < DOUBLE_START ==>
      blockNum / ADDRS_PER_SECTOR < INDIR_ADDR &&
      blockNum == (blockNum / ADDRS_PER_SECTOR) * ADDRS_PER_SECTOR + blockNum % ADDRS_PER_SECTOR
    ensures blockNum >= DOUBLE_START ==>
      var b := blockNum - DOUBLE_START;
      b / ADDRS_PER_SECTOR < ADDRS_PER_SECTOR &&
      blockNum == DOUBLE_START + (b / ADDRS_PER_SECTOR) * ADDRS_PER_SECTOR + b % ADDRS_PER_SECTOR
  {
  }

  /**
   * `inode_getsize`: `i_size0` is the high byte and `i_size1` the low two
   * bytes of the 24-bit size (`(i_size0 << 16) | i_size1`, the two parts
   * having no bit in common).
   */
  function Size(ino: Inode): (n: nat)
    ensures n < 0x100_0000
    ensures n / 0x1_0000 == ino.size0 && n % 0x1_0000 == ino.size1
  {
    ino.size0 * 0x1_0000 + ino.size1
  }
}
