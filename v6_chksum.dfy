/**
 * `chksumfile.c`: the SHA-1 checksum of a file's contents, by inumber or by
 * path, its hexadecimal text, and the comparison of two checksums.
 *
 * SHA-1 itself is a parameter: any function from a byte string to a 20-byte
 * digest. The digest the source computes by `SHA1_Init`, one `SHA1_Update`
 * per block and `SHA1_Final` is that function applied to the bytes fed in,
 * in order.
 */
module V6Checksum {
  import opened Wrappers
  import opened V6Inode
  import opened V6File
  import opened V6Pathname

  /** `SHA_DIGEST_LENGTH`. */
  const DIGEST_LENGTH: nat := 20
  /** `CHKSUMFILE_STRINGSIZE`: two hex digits per byte and a NUL. */
  const STRING_SIZE: nat := 2 * DIGEST_LENGTH + 1

  type Digest = s: seq<byte> | |s| == DIGEST_LENGTH
    witness [0, 0, 0, 0, 0, 0, 0, 0, 0, 0, 0, 0, 0, 0, 0, 0, 0, 0, 0, 0]

  /** The bytes of blocks `0..n`, each cut to its valid bytes; `None` if one of them failed. */
  function Gather(bs: seq<Option<Block>>, n: nat): (r: Option<seq<byte>>)
    requires AllSized(bs) && n <= |bs|
  {
    if n == 0 then Some([])
    else
      match Gather(bs, n - 1)
      case None => None
      case Some(c) =>
        match bs[n - 1]
        case None => None
        case Some(b) => Some(c + b.data[..b.valid])
  }

  /** When each block carries the valid bytes of its place, the gathered bytes add up block by block. */
  lemma {:induction false} GatherLength(bs: seq<Option<Block>>, n: nat, size: nat)
    requires AllSized(bs) && n <= |bs|
    requires forall k :: 0 <= k < |bs| && bs[k].Some? ==> bs[k].value.valid == ValidBytes(size, k)
    ensures Gather(bs, n).Some? ==> |Gather(bs, n).value| == SumValid(size, n)
  {
    if n > 0 {
      GatherLength(bs, n - 1, size);
    }
  }

  /**
   * The bytes `chksumfile_byinumber` hashes: nothing when the inode cannot
   * be fetched or is not allocated, or when one of its blocks fails;
   * otherwise blocks `0..ceil(size / 512)` in order, each cut to its valid
   * bytes.
   */
  function Contents(disk: Disk, inumber: int): (r: Option<seq<byte>>)
    ensures IGet(disk, inumber).None? ==> r.None?
    ensures IGet(disk, inumber).Some? && !Allocated(IGet(disk, inumber).value) ==> r.None?
  {
    match IGet(disk, inumber)
    case None => None
    case Some(ino) =>
      if !Allocated(ino) then None
      else
        var n := NumBlocks(Size(ino));
        Gather(Blocks(disk, inumber, n), n)
  }

  /** What is hashed is exactly the file's size in bytes. */
  lemma ContentsLength(disk: Disk, inumber: int)
    requires Contents(disk, inumber).Some?
    ensures |Contents(disk, inumber).value| == Size(IGet(disk, inumber).value)
  {
    var size := Size(IGet(disk, inumber).value);
    var n := NumBlocks(size);
    BlocksValid(disk, inumber, n);
    GatherLength(Blocks(disk, inumber, n), n, size);
    SumValidIsSize(size);
  }

  /**
   * `chksumfile_byinumber`: 20 and the digest of the file's contents, or -1
   * and the buffer as it was.
   */
  method ChecksumByInumber(disk: Disk, inumber: int, sha1: seq<byte> -> Digest, chksum: Digest)
    returns (r: int, digest: Digest)
    ensures r == DIGEST_LENGTH || r == -1
    ensures r == DIGEST_LENGTH <==> Contents(disk, inumber).Some?
    ensures r == DIGEST_LENGTH ==> digest == sha1(Contents(disk, inumber).value)
    ensures r == -1 ==> digest == chksum
  {
    digest := chksum;
    var node := IGet(disk, inumber);
    if node.None? {
      return -1, digest;
    }
    if !Allocated(node.value) {
      return -1, digest;
    }
    var size := Size(node.value);
    ContentsIs(disk, inumber);
    var ok, shactx := HashBlocks(disk, inumber, size);
    if !ok {
      return -1, digest;
    }
    return DIGEST_LENGTH, sha1(shactx);
  }

  /**
   * The loop of `chksumfile_byinumber`: the valid bytes of each block from
   * offset 0 on in steps of 512 while the offset is inside the file, as fed
   * to `SHA1_Update`; stops at the first block that fails.
   */
  method HashBlocks(disk: Disk, inumber: int, size: nat) returns (ok: bool, shactx: seq<byte>)
    ensures ok <==> Gather(Blocks(disk, inumber, NumBlocks(size)), NumBlocks(size)).Some?
    ensures ok ==> Gather(Blocks(disk, inumber, NumBlocks(size)), NumBlocks(size)) == Some(shactx)
  {
    ghost var n := NumBlocks(size);
    ghost var bs := Blocks(disk, inumber, n);
    shactx := [];
    var offset := 0;
    ghost var moved: nat := 0;
    while offset < size
      invariant offset == moved * 512 && moved <= n
      invariant Gather(bs, moved) == Some(shactx)
    {
      NextBlock(size, moved);
      var bno := offset / SECTOR_SIZE;
      ok, shactx := HashBlock(disk, inumber, bno, bs, shactx);
      if !ok {
        return false, shactx;
      }
      offset := offset + SECTOR_SIZE;
      moved := moved + 1;
    }
    NextBlock(size, moved);
    return true, shactx;
  }

  /** One pass of that loop: block `bno` read and its valid bytes fed in after `shactx`. */
  method HashBlock(disk: Disk, inumber: int, bno: nat, ghost bs: seq<Option<Block>>, shactx: seq<byte>)
    returns (ok: bool, shactx': seq<byte>)
    requires bno < |bs| && bs == Blocks(disk, inumber, |bs|) && Gather(bs, bno) == Some(shactx)
    ensures ok ==> Gather(bs, bno + 1) == Some(shactx')
    ensures !ok ==> Gather(bs, |bs|).None?
  {
    var block := GetBlock(disk, inumber, bno);
    assert block == bs[bno];
    if block.None? {
      GatherFails(bs, bno + 1, |bs|);
      return false, shactx;
    }
    return true, shactx + block.value.data[..block.value.valid];
  }

  /** Once a block has failed, every longer prefix fails. */
  lemma {:induction false} GatherFails(bs: seq<Option<Block>>, m: nat, n: nat)
    requires AllSized(bs) && m <= n <= |bs| && Gather(bs, m).None?
    ensures Gather(bs, n).None?
    decreases n - m
  {
    if m < n {
      GatherFails(bs, m + 1, n);
    }
  }

  lemma ContentsIs(disk: Disk, inumber: int)
    requires IGet(disk, inumber).Some? && Allocated(IGet(disk, inumber).value)
    ensures var n := NumBlocks(Size(IGet(disk, inumber).value));
      Contents(disk, inumber) == Gather(Blocks(disk, inumber, n), n)
  {
  }

  /** Block `m` starts at byte `m * 512`, and inside a file of `size` bytes exactly when `m` is below the block count. */
  lemma NextBlock(size: nat, m: nat)
    ensures (m * 512) / SECTOR_SIZE == m
    ensures m * 512 < size <==> m < NumBlocks(size)
  {
  }

  /**
   * `chksumfile_bypathname`: a failed path lookup is returned as it is;
   * otherwise the checksum of the inode the path names.
   */
  method ChecksumByPathname(disk: Disk, pathname: seq<byte>, sha1: seq<byte> -> Digest, chksum: Digest)
    returns (r: int, digest: Digest)
    requires pathname != [] && Fits(pathname[1..])
    ensures Lookup(disk, pathname) < 0 ==> r == Lookup(disk, pathname) && digest == chksum
    ensures Lookup(disk, pathname) >= 0 ==>
      (r == DIGEST_LENGTH <==> Contents(disk, Lookup(disk, pathname)).Some?) &&
      (r == DIGEST_LENGTH ==> digest == sha1(Contents(disk, Lookup(disk, pathname)).value)) &&
      (r != DIGEST_LENGTH ==> r == -1 && digest == chksum)
  {
    var inumber := Lookup(disk, pathname);
    if inumber < 0 {
      return inumber, chksum;
    }
    r, digest := ChecksumByInumber(disk, inumber, sha1, chksum);
  }

  /** `%x`: a lowercase hexadecimal digit. */
  function HexDigit(d: nat): (c: char)
    requires d < 16
  {
    if d < 10 then '0' + d as char else 'a' + (d - 10) as char
  }

  /** `%02x`: two hexadecimal digits, high nibble first. */
  function HexByte(b: byte): (s: string) {
    [HexDigit(b / 16), HexDigit(b % 16)]
  }

  function Hex(s: seq<byte>): (r: string)
    ensures |r| == 2 * |s|
  {
    if s == [] then [] else HexByte(s[0]) + Hex(s[1..])
  }

  lemma HexDigitInjective(a: nat, b: nat)
    requires a < 16 && b < 16 && HexDigit(a) == HexDigit(b)
    ensures a == b
  {
  }

  /** Two bytes with the same two digits are the same byte. */
  lemma HexByteInjective(a: byte, b: byte)
    requires HexByte(a) == HexByte(b)
    ensures a == b
  {
    assert HexByte(a)[0] == HexByte(b)[0] && HexByte(a)[1] == HexByte(b)[1];
    HexDigitInjective(a / 16, b / 16);
    HexDigitInjective(a % 16, b % 16);
  }

  /** Different checksums have different text. */
  lemma {:induction false} HexInjective(a: seq<byte>, b: seq<byte>)
    requires |a| == |b| && Hex(a) == Hex(b)
    ensures a == b
  {
    if a != [] {
      assert Hex(a)[..2] == HexByte(a[0]) && Hex(b)[..2] == HexByte(b[0]);
      HexByteInjective(a[0], b[0]);
      assert Hex(a)[2..] == Hex(a[1..]) && Hex(b)[2..] == Hex(b[1..]);
      HexInjective(a[1..], b[1..]);
    }
  }

  /** Digits `2 * i` and `2 * i + 1` of the text are those of byte `i`. */
  lemma {:induction false} HexAt(s: seq<byte>, i: nat)
    requires i < |s|
    ensures Hex(s)[2 * i] == HexDigit(s[i] / 16) && Hex(s)[2 * i + 1] == HexDigit(s[i] % 16)
  {
    if i > 0 {
      HexAt(s[1..], i - 1);
    }
  }

  /** The text of a prefix grows by the two digits of the next byte. */
  lemma HexSnoc(s: seq<byte>, i: nat)
    requires i < |s|
    ensures Hex(s[..i + 1]) == Hex(s[..i]) + HexByte(s[i])
  {
    HexAppend(s[..i], [s[i]]);
    assert s[..i] + [s[i]] == s[..i + 1];
  }

  lemma {:induction false} HexAppend(a: seq<byte>, b: seq<byte>)
    ensures Hex(a + b) == Hex(a) + Hex(b)
  {
    if a != [] {
      assert (a + b)[1..] == a[1..] + b;
      HexAppend(a[1..], b);
    } else {
      assert a + b == b;
    }
  }

  /**
   * `chksumfile_cvt2string`: the 40 hexadecimal digits of the checksum and
   * a NUL at the front of `outstring`, which must hold 41 characters; the
   * rest of it is untouched.
   */
  method Cvt2String(chksum: Digest, outstring: array<char>)
    requires outstring.Length >= STRING_SIZE
    modifies outstring
    ensures outstring[..STRING_SIZE] == Hex(chksum) + ['\0']
    ensures outstring[STRING_SIZE..] == old(outstring[STRING_SIZE..])
  {
    var i := 0;
    while i < DIGEST_LENGTH
      invariant 0 <= i <= DIGEST_LENGTH
      invariant outstring[..2 * i] == Hex(chksum[..i])
      invariant i > 0 ==> outstring[2 * i] == '\0'
      invariant outstring[2 * i + 1..] == old(outstring[2 * i + 1..])
    {
      var hex := HexByte(chksum[i]);
      outstring[2 * i] := hex[0];
      outstring[2 * i + 1] := hex[1];
      outstring[2 * i + 2] := '\0';
      HexSnoc(chksum, i);
      assert outstring[..2 * i + 2] == outstring[..2 * i] + hex;
      i := i + 1;
    }
    assert chksum[..DIGEST_LENGTH] == chksum;
    assert outstring[..STRING_SIZE] == outstring[..2 * DIGEST_LENGTH] + [outstring[2 * DIGEST_LENGTH]];
  }

  /** `chksumfile_compare`: 1 when the two checksums are the same in all 20 bytes, 0 otherwise. */
  method Compare(chksum1: Digest, chksum2: Digest) returns (r: int)
    ensures r == 0 || r == 1
    ensures r == 1 <==> chksum1 == chksum2
  {
    var i := 0;
    while i < DIGEST_LENGTH
      invariant 0 <= i <= DIGEST_LENGTH
      invariant chksum1[..i] == chksum2[..i]
    {
      if chksum1[i] != chksum2[i] {
        return 0;
      }
      assert chksum1[..i + 1] == chksum1[..i] + [chksum1[i]];
      assert chksum2[..i + 1] == chksum2[..i] + [chksum2[i]];
      i := i + 1;
    }
    assert chksum1 == chksum1[..DIGEST_LENGTH] && chksum2 == chksum2[..DIGEST_LENGTH];
    return 1;
  }
}
