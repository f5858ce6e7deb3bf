/** The read-only file system: files as chains of 4-KByte blocks, and one flat directory. */
module FileSystem {
  import opened Types

  const MAX_NAME_LENGTH := 32
  const NUM_BLOCK_NUMBERS := 1023

  datatype IndexNode = IndexNode(length: u32, dataBlock: seq<u32>)

  datatype Dentry = Dentry(fileName: seq<byte>, fileType: u32, inode: u32)

  /** The image in memory; the counts in the boot block say how much of it there is. */
  datatype Image = Image(dirEntries: seq<Dentry>, inodes: seq<IndexNode>, blocks: seq<seq<byte>>)

  predicate ImageOk(img: Image) {
    && (forall i | 0 <= i < |img.inodes| :: |img.inodes[i].dataBlock| == NUM_BLOCK_NUMBERS)
    && (forall b | 0 <= b < |img.blocks| :: |img.blocks[b]| == FOUR_KB)
    && (forall i | 0 <= i < |img.dirEntries| :: |img.dirEntries[i].fileName| == MAX_NAME_LENGTH)
  }

  /** The block with a given index in the file exists. */
  predicate HasBlock(img: Image, node: IndexNode, index: nat) {
    index < |node.dataBlock| && node.dataBlock[index] < |img.blocks|
  }

  predicate HasByte(img: Image, node: IndexNode, position: nat) {
    HasBlock(img, node, position / FOUR_KB)
  }

  /** The byte at a position of the file. */
  function ByteAt(img: Image, node: IndexNode, position: nat): byte
    requires ImageOk(img) && HasByte(img, node, position)
  {
    img.blocks[node.dataBlock[position / FOUR_KB]][position % FOUR_KB]
  }

  predicate IsByte(img: Image, node: IndexNode, position: nat, b: byte)
    requires ImageOk(img)
  {
    HasByte(img, node, position) && b == ByteAt(img, node, position)
  }

  /** How many bytes a read at an offset can deliver. */
  function Available(node: IndexNode, offset: nat, length: nat): nat {
    if offset >= node.length then 0
    else if offset + length <= node.length then length
    else node.length - offset
  }

  /** Every block that the read enters after its first one, up to where it stops, exists. */
  predicate EntersOnlyBlocks(img: Image, node: IndexNode, offset: nat, n: nat) {
    forall b | offset / FOUR_KB < b <= (offset + n) / FOUR_KB :: HasBlock(img, node, b)
  }

  /** A read that delivers anything starts in a block that exists and stays within the block numbers of the inode. */
  predicate ReadInBounds(img: Image, inode: nat, offset: nat, length: nat)
    requires ImageOk(img)
  {
    inode < |img.inodes| ==>
      var node, n := img.inodes[inode], Available(img.inodes[inode], offset, length);
      n > 0 ==> HasBlock(img, node, offset / FOUR_KB) && (offset + n) / FOUR_KB < NUM_BLOCK_NUMBERS
  }

  /** A read has an inode, and comes to no missing block. */
  predicate ReadSucceeds(img: Image, inode: nat, offset: nat, length: nat) {
    inode < |img.inodes| &&
    var node := img.inodes[inode]; EntersOnlyBlocks(img, node, offset, Available(node, offset, length))
  }

  /** The first n bytes of a buffer are those of the file from an offset on, and the others as they were. */
  predicate Holds(img: Image, node: IndexNode, offset: nat, n: nat, was: seq<byte>, now: seq<byte>)
    requires ImageOk(img)
  {
    && n <= |now| == |was|
    && (forall k | 0 <= k < n :: IsByte(img, node, offset + k, now[k]))
    && (forall k | n <= k < |now| :: now[k] == was[k])
  }

  /** Where the next byte is, and when it is the first of a block. */
  lemma NextPlace(offset: nat, i: nat)
    ensures var place := (offset + i) % FOUR_KB;
      && ((offset % FOUR_KB + i + 1) % FOUR_KB == 0 <==> place + 1 == FOUR_KB)
      && (offset + i + 1) / FOUR_KB == (offset + i) / FOUR_KB + (if place + 1 == FOUR_KB then 1 else 0)
      && (offset + i + 1) % FOUR_KB == if place + 1 == FOUR_KB then 0 else place + 1
  {
  }

  lemma OneMoreBlock(img: Image, node: IndexNode, offset: nat, i: nat)
    requires EntersOnlyBlocks(img, node, offset, i)
    requires (offset + i + 1) / FOUR_KB == (offset + i) / FOUR_KB || HasBlock(img, node, (offset + i + 1) / FOUR_KB)
    ensures EntersOnlyBlocks(img, node, offset, i + 1)
  {
  }

  /**
   read_data(): the count of bytes copied, or -1 if there is no such inode or the read comes to a
   block that does not exist, even just behind the last byte it wants.
   */
  method ReadData(img: Image, inode: u32, offset: u32, buf: array<byte>, length: u32) returns (r: int)
    requires ImageOk(img) && ReadInBounds(img, inode, offset, length)
    requires inode < |img.inodes| ==> Available(img.inodes[inode], offset, length) <= buf.Length
    modifies buf
    ensures inode >= |img.inodes| ==> buf[..] == old(buf[..])
    ensures ReadSucceeds(img, inode, offset, length) ==>
              && r == Available(img.inodes[inode], offset, length)
              && Holds(img, img.inodes[inode], offset, r, old(buf[..]), buf[..])
    ensures !ReadSucceeds(img, inode, offset, length) ==> r == -1
  {
    if inode >= |img.inodes| {
      return -1;
    }
    var node := img.inodes[inode];
    r := CopyBlocks(img, node, offset, buf, length);
  }

  /** The loop of read_data(). */
  method CopyBlocks(img: Image, node: IndexNode, offset: u32, buf: array<byte>, length: u32) returns (r: int)
    requires ImageOk(img) && |node.dataBlock| == NUM_BLOCK_NUMBERS && Available(node, offset, length) <= buf.Length
    requires Available(node, offset, length) > 0 ==>
               HasBlock(img, node, offset / FOUR_KB) && (offset + Available(node, offset, length)) / FOUR_KB < NUM_BLOCK_NUMBERS
    modifies buf
    ensures if EntersOnlyBlocks(img, node, offset, Available(node, offset, length)) then
              r == Available(node, offset, length) && Holds(img, node, offset, r, old(buf[..]), buf[..])
            else r == -1
  {
    ghost var was, n := buf[..], Available(node, offset, length);
    var index, line := offset / FOUR_KB, offset % FOUR_KB;
    // Whatever the code takes for a block number behind the last one is never used.
    var block, place := if index < NUM_BLOCK_NUMBERS then node.dataBlock[index] else 0, line;
    var i := 0;
    while i < length
      invariant 0 <= i <= n
      invariant index == (offset + i) / FOUR_KB && line == offset % FOUR_KB + i && place == (offset + i) % FOUR_KB
      invariant n > 0 ==> HasBlock(img, node, index) && block == node.dataBlock[index]
      invariant EntersOnlyBlocks(img, node, offset, i)
      invariant Holds(img, node, offset, i, was, buf[..])
      decreases length - i
    {
      if i + offset >= node.length {
        return i;
      }
      buf[i] := img.blocks[block][place];
      assert IsByte(img, node, offset + i, buf[i]);
      NextPlace(offset, i);
      line := line + 1;
      if line % FOUR_KB == 0 {
        index := index + 1;
        BlockIsEntered(img, node, offset, i + 1, n);
        if node.dataBlock[index] >= |img.blocks| {
          return -1;
        }
        block, place := node.dataBlock[index], 0;
      } else {
        place := place + 1;
      }
      OneMoreBlock(img, node, offset, i);
      i := i + 1;
    }
    return length;
  }

  /** A block that the read comes to in the middle is among those that have to exist. */
  lemma BlockIsEntered(img: Image, node: IndexNode, offset: nat, i: nat, n: nat)
    requires 0 < i <= n && (offset + i) % FOUR_KB == 0
    ensures (offset + i) / FOUR_KB <= (offset + n) / FOUR_KB
    ensures !HasBlock(img, node, (offset + i) / FOUR_KB) ==> !EntersOnlyBlocks(img, node, offset, n)
  {
  }

  /** All blocks of the file, and the one its length ends in or before, exist. */
  predicate Sound(img: Image, node: IndexNode) {
    node.length < NUM_BLOCK_NUMBERS * FOUR_KB && forall b | 0 <= b <= node.length / FOUR_KB :: HasBlock(img, node, b)
  }

  /** The flat contents of the file. */
  function Flat(img: Image, node: IndexNode): (r: seq<byte>)
    requires ImageOk(img) && Sound(img, node)
    ensures |r| == node.length
  {
    seq(node.length, k requires 0 <= k < node.length => assert HasBlock(img, node, k / FOUR_KB); ByteAt(img, node, k))
  }

  /** The blocks of the given numbers, one behind the other. */
  function Blocks(img: Image, numbers: seq<u32>): seq<byte>
    requires forall k | 0 <= k < |numbers| :: numbers[k] < |img.blocks|
  {
    if numbers == [] then [] else Blocks(img, numbers[..|numbers| - 1]) + img.blocks[numbers[|numbers| - 1]]
  }

  lemma {:induction false} BlocksAt(img: Image, numbers: seq<u32>, k: nat, i: nat)
    requires ImageOk(img) && forall k | 0 <= k < |numbers| :: numbers[k] < |img.blocks|
    requires k < |numbers| && i < FOUR_KB
    ensures |Blocks(img, numbers)| == FOUR_KB * |numbers|
    ensures Blocks(img, numbers)[FOUR_KB * k + i] == img.blocks[numbers[k]][i]
    decreases numbers
  {
    var front := numbers[..|numbers| - 1];
    if front != [] {
      BlocksAt(img, front, if k < |front| then k else 0, i);
    }
  }

  /** The numbers of the blocks that a whole file is in. */
  function Numbers(img: Image, node: IndexNode): (r: seq<u32>)
    requires ImageOk(img) && Sound(img, node)
    ensures |r| == node.length / 4096 + 1 && forall k | 0 <= k < |r| :: r[k] < |img.blocks|
  {
    assert HasBlock(img, node, node.length / FOUR_KB);
    assert forall k | 0 <= k <= node.length / FOUR_KB :: HasBlock(img, node, k) ==> node.dataBlock[k] < |img.blocks|;
    node.dataBlock[..node.length / 4096 + 1]
  }

  /** The block and the place in it of a position in a file. */
  lemma PlaceIn(p: nat, length: nat) returns (k: nat, i: nat)
    requires p < length
    ensures k == p / FOUR_KB && i == p % FOUR_KB && p == FOUR_KB * k + i && i < FOUR_KB && k <= length / FOUR_KB
  {
    k, i := p / FOUR_KB, p % FOUR_KB;
  }

  /** A whole file is its blocks in order, cut at its length. */
  lemma FlatIsBlocks(img: Image, node: IndexNode)
    requires ImageOk(img) && Sound(img, node)
    ensures node.length <= |Blocks(img, Numbers(img, node))|
    ensures Flat(img, node) == Blocks(img, Numbers(img, node))[..node.length]
  {
    var numbers := Numbers(img, node);
    BlocksAt(img, numbers, 0, 0);
    forall p | 0 <= p < node.length ensures Flat(img, node)[p] == Blocks(img, numbers)[p] {
      var k, i := PlaceIn(p, node.length);
      BlocksAt(img, numbers, k, i);
      assert HasBlock(img, node, k) && numbers[k] == node.dataBlock[k];
    }
  }

  /** What a read of a flat file at an offset delivers: a slice clipped at the end. */
  function Slice(file: seq<byte>, offset: nat, length: nat): seq<byte> {
    if offset >= |file| then []
    else if offset + length <= |file| then file[offset..offset + length]
    else file[offset..]
  }

  /** A sound file never runs into a missing block, wherever a read starts and however long it is. */
  lemma SoundFilesRead(img: Image, node: IndexNode, offset: nat, length: nat)
    requires ImageOk(img) && Sound(img, node)
    ensures EntersOnlyBlocks(img, node, offset, Available(node, offset, length))
    ensures Available(node, offset, length) == |Slice(Flat(img, node), offset, length)|
  {
  }

  lemma DeliveredSlice(img: Image, node: IndexNode, file: seq<byte>, offset: nat, length: nat, was: seq<byte>, now: seq<byte>)
    requires ImageOk(img) && Sound(img, node) && file == Flat(img, node)
    requires Holds(img, node, offset, Available(node, offset, length), was, now)
    ensures var slice := Slice(file, offset, length); |slice| <= |was| && now == slice + was[|slice|..]
  {
    SoundFilesRead(img, node, offset, length);
    var slice := Slice(file, offset, length);
    forall k | 0 <= k < |slice| ensures now[k] == slice[k] {
      assert IsByte(img, node, offset + k, now[k]);
    }
  }

  /** Reading all of a file delivers it if every block up to index length / 4096 exists; it is the later
      ones of these that the code checks. */
  lemma WholeReadSucceedsIff(img: Image, node: IndexNode, length: nat)
    requires ImageOk(img) && length >= node.length
    ensures Sound(img, node)
       <==> && node.length < NUM_BLOCK_NUMBERS * FOUR_KB && HasBlock(img, node, 0)
            && EntersOnlyBlocks(img, node, 0, Available(node, 0, length))
  {
  }

  /** An open file: file_read() on its descriptor. */
  class OpenFile {
    const img: Image
    const inode: u32
    var filePosition: u32

    constructor (image: Image, number: u32)
      ensures img == image && inode == number && filePosition == 0
    {
      img, inode, filePosition := image, number, 0;
    }

    /** The file is whole, and the position in it. */
    ghost predicate Valid()
      reads this
    {
      && ImageOk(img)
      && inode < |img.inodes|
      && Sound(img, img.inodes[inode])
      && filePosition <= img.inodes[inode].length
    }

    /** The bytes of the file's blocks, up to its length. */
    ghost function Contents(): seq<byte>
      requires ImageOk(img) && inode < |img.inodes| && Sound(img, img.inodes[inode])
    {
      var node := img.inodes[inode];
      FlatIsBlocks(img, node);
      Blocks(img, Numbers(img, node))[..node.length]
    }

    lemma ContentsAreFlat()
      requires ImageOk(img) && inode < |img.inodes| && Sound(img, img.inodes[inode])
      ensures Contents() == Flat(img, img.inodes[inode]) && |Contents()| == img.inodes[inode].length
    {
      FlatIsBlocks(img, img.inodes[inode]);
    }

    /** file_read(): after a read that fails, the position goes back by one. */
    method FileRead(buf: array<byte>, nbytes: u32) returns (r: int)
      requires ImageOk(img) && ReadInBounds(img, inode, filePosition, nbytes)
      requires inode < |img.inodes| ==> Available(img.inodes[inode], filePosition, nbytes) <= buf.Length
      modifies this, buf
      ensures filePosition == Add32(old(filePosition), Unsigned(r))
      ensures ReadSucceeds(img, inode, old(filePosition), nbytes) ==>
                && r == Available(img.inodes[inode], old(filePosition), nbytes)
                && Holds(img, img.inodes[inode], old(filePosition), r, old(buf[..]), buf[..])
      ensures !ReadSucceeds(img, inode, old(filePosition), nbytes) ==> r == -1
    {
      r := ReadData(img, inode, filePosition, buf, nbytes);
      filePosition := Add32(filePosition, Unsigned(r));
    }

    /** file_read() on a whole file: the slice of it at the position, which moves by the count. */
    method ReadWhole(buf: array<byte>, nbytes: u32) returns (r: int)
      requires Valid() && nbytes <= buf.Length
      modifies this, buf
      ensures Valid()
      ensures var slice := Slice(Contents(), old(filePosition), nbytes);
        && r == |slice|
        && buf[..] == slice + old(buf[..])[|slice|..]
        && filePosition == old(filePosition) + |slice|
    {
      SoundFilesRead(img, img.inodes[inode], filePosition, nbytes);
      SoundInBounds(img, inode, filePosition, nbytes);
      ContentsAreFlat();
      r := FileRead(buf, nbytes);
      DeliveredSlice(img, img.inodes[inode], Contents(), old(filePosition), nbytes, old(buf[..]), buf[..]);
    }
  }

  lemma SoundInBounds(img: Image, inode: nat, offset: nat, length: nat)
    requires ImageOk(img) && inode < |img.inodes| && Sound(img, img.inodes[inode])
    ensures ReadInBounds(img, inode, offset, length)
  {
  }

  // ----- runs of reads -----

  /** The bytes that consecutive reads of the given sizes deliver, one sequence for each read. */
  function Deliveries(file: seq<byte>, position: nat, sizes: seq<nat>): (r: seq<seq<byte>>)
    ensures |r| == |sizes|
    decreases sizes
  {
    if sizes == [] then []
    else
      var slice := Slice(file, position, sizes[0]);
      [slice] + Deliveries(file, position + |slice|, sizes[1..])
  }

  function Joined(parts: seq<seq<byte>>): seq<byte> {
    if parts == [] then [] else parts[0] + Joined(parts[1..])
  }

  function Sum(sizes: seq<nat>): nat {
    if sizes == [] then 0 else sizes[0] + Sum(sizes[1..])
  }

  lemma SlicesJoin(file: seq<byte>, position: nat, a: nat, b: nat)
    requires position <= |file|
    ensures var slice := Slice(file, position, a);
      position + |slice| <= |file| && slice + Slice(file, position + |slice|, b) == Slice(file, position, a + b)
  {
  }

  lemma JoinedFirst(first: seq<byte>, rest: seq<seq<byte>>)
    ensures Joined([first] + rest) == first + Joined(rest)
  {
    assert ([first] + rest)[1..] == rest;
  }

  /** Reads of any sizes deliver the file in order, each byte once, up to the sum of the sizes or the end. */
  lemma {:induction false} ReadsDeliverTheFile(file: seq<byte>, position: nat, sizes: seq<nat>)
    requires position <= |file|
    ensures Joined(Deliveries(file, position, sizes)) == Slice(file, position, Sum(sizes))
    decreases sizes
  {
    if sizes == [] {
      assert Slice(file, position, 0) == [];
    } else {
      var slice := Slice(file, position, sizes[0]);
      SlicesJoin(file, position, sizes[0], Sum(sizes[1..]));
      ReadsDeliverTheFile(file, position + |slice|, sizes[1..]);
      JoinedFirst(slice, Deliveries(file, position + |slice|, sizes[1..]));
    }
  }

  /** A read of a positive size returns 0 exactly at the end of the file. */
  lemma ZeroMeansEndOfFile(file: seq<byte>, position: nat, size: nat)
    requires position <= |file| && size > 0
    ensures |Slice(file, position, size)| == 0 <==> position == |file|
  {
  }
}
