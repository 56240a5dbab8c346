/**
 * `file.c`: fetching one block of a file by inumber, with the number of its
 * bytes that belong to the file.
 */
module V6File {
  import opened Wrappers
  import opened V6Inode

  /** A block read from disk and how many of its bytes are file data. */
  datatype Block = Block(data: seq<byte>, valid: nat)

  /**
   * Bytes of block `blockNum` that lie inside a file of `size` bytes: the
   * remainder for the block that holds the end of the file, a whole sector
   * for any other block.
   */
  function ValidBytes(size: nat, blockNum: int): (n: nat)
    ensures n <= SECTOR_SIZE
    ensures blockNum == size / SECTOR_SIZE ==> n == size % SECTOR_SIZE
    ensures blockNum != size / SECTOR_SIZE ==> n == SECTOR_SIZE
  {
    if blockNum == size / SECTOR_SIZE then size % SECTOR_SIZE else SECTOR_SIZE
  }

  /** The number of blocks a file of `size` bytes occupies, rounding up. */
  function NumBlocks(size: nat): nat {
    (size + SECTOR_SIZE - 1) / SECTOR_SIZE
  }

  /** The valid bytes of blocks `0..n` added up. */
  function SumValid(size: nat, n: nat): nat {
    if n == 0 then 0 else SumValid(size, n - 1) + ValidBytes(size, n - 1)
  }

  /** Every block before the one that holds the end of the file is full. */
  lemma {:induction false} SumValidFull(size: nat, n: nat)
    requires n <= size / SECTOR_SIZE
    ensures SumValid(size, n) == n * SECTOR_SIZE
  {
    if n > 0 {
      SumValidFull(size, n - 1);
    }
  }

  /**
   * Reading the blocks of a file one by one, each cut to its valid bytes,
   * gives exactly `size` bytes in all. When the size is a multiple of 512
   * the block that would hold the end is not read at all.
   */
  lemma SumValidIsSize(size: nat)
    ensures SumValid(size, NumBlocks(size)) == size
  {
    var q := size / SECTOR_SIZE;
    SumValidFull(size, q);
    if size % SECTOR_SIZE != 0 {
      assert NumBlocks(size) == q + 1;
    } else {
      assert NumBlocks(size) == q;
    }
  }

  /** The block right after the last full one of a file whose size is a multiple of 512 has no valid bytes. */
  lemma EmptyTailBlock(size: nat)
    requires size % SECTOR_SIZE == 0
    ensures ValidBytes(size, size / SECTOR_SIZE) == 0 && NumBlocks(size) == size / SECTOR_SIZE
  {
  }

  /**
   * `file_getblock`: the sector holding block `blockNum` of file `inumber`
   * and its valid byte count; `None` (the source's -1) when fetching the
   * inode, looking up the block or reading the sector fails.
   */
  function GetBlock(disk: Disk, inumber: int, blockNum: int): (r: Option<Block>)
    ensures r.Some? ==> |r.value.data| == SECTOR_SIZE && r.value.valid <= SECTOR_SIZE
  {
    match IGet(disk, inumber)
    case None => None
    case Some(ino) =>
      var sector := IndexLookup(disk, ino, blockNum);
      if sector < 0 then None
      else
        match ReadSector(disk, sector)
        case None => None
        case Some(data) => Some(Block(data, ValidBytes(Size(ino), blockNum)))
  }

  /**
   * A block is fetched exactly when the inode, the block lookup and the
   * sector read all succeed; it is then the sector the lookup names, with
   * the valid bytes of that block of the file.
   */
  lemma GetBlockIs(disk: Disk, inumber: int, blockNum: int)
    ensures GetBlock(disk, inumber, blockNum).Some? <==>
      IGet(disk, inumber).Some? &&
      IndexLookup(disk, IGet(disk, inumber).value, blockNum) >= 0 &&
      ReadSector(disk, IndexLookup(disk, IGet(disk, inumber).value, blockNum)).Some?
    ensures GetBlock(disk, inumber, blockNum).Some? ==>
      var ino := IGet(disk, inumber).value;
      GetBlock(disk, inumber, blockNum).value ==
        Block(disk[IndexLookup(disk, ino, blockNum)], ValidBytes(Size(ino), blockNum))
  {
  }

  predicate Sized(b: Block) {
    |b.data| == SECTOR_SIZE && b.valid <= SECTOR_SIZE
  }

  predicate AllSized(bs: seq<Option<Block>>) {
    forall k :: 0 <= k < |bs| && bs[k].Some? ==> Sized(bs[k].value)
  }

  /** Blocks `0..n` of file `inumber` as `file_getblock` returns them, failures included. */
  function Blocks(disk: Disk, inumber: int, n: nat): (bs: seq<Option<Block>>)
    ensures |bs| == n && AllSized(bs)
  {
    seq(n, k requires 0 <= k < n => GetBlock(disk, inumber, k))
  }

  /** The blocks of a file that read all carry the valid bytes of their place in the file. */
  lemma BlocksValid(disk: Disk, inumber: int, n: nat)
    requires IGet(disk, inumber).Some?
    ensures var size := Size(IGet(disk, inumber).value);
      forall k :: 0 <= k < n && Blocks(disk, inumber, n)[k].Some? ==>
        Blocks(disk, inumber, n)[k].value.valid == ValidBytes(size, k)
  {
    forall k | 0 <= k < n && Blocks(disk, inumber, n)[k].Some?
      ensures Blocks(disk, inumber, n)[k].value.valid == ValidBytes(Size(IGet(disk, inumber).value), k)
    {
      GetBlockIs(disk, inumber, k);
    }
  }
}
