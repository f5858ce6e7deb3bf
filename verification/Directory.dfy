/** The one flat directory: look-up by name, and the listing that dir_read() steps through. */
module Directory {
  import opened Types
  import opened FileSystem

  /** Names fill their 32 bytes with NULs, or all of them; inode numbers are small. */
  predicate EntryOk(e: Dentry) {
    |e.fileName| == MAX_NAME_LENGTH && e.inode < 0x100_0000
  }

  /** The name that an entry holds. */
  function Name(e: Dentry): (r: seq<byte>)
    requires EntryOk(e)
    ensures |r| <= MAX_NAME_LENGTH && r <= e.fileName && NUL !in r
    ensures |r| < MAX_NAME_LENGTH ==> e.fileName[|r|] == NUL
    ensures forall k | 0 <= k < |r| :: e.fileName[k] != NUL
  {
    UpToNul(e.fileName)
  }

  function UpToNul(s: seq<byte>): (r: seq<byte>)
    ensures r <= s && NUL !in r && (|r| < |s| ==> s[|r|] == NUL)
  {
    if s == [] || s[0] == NUL then [] else
      var rest := UpToNul(s[1..]);
      assert [s[0]] + rest <= [s[0]] + s[1..] == s;
      [s[0]] + rest
  }

  function ByteOf(w: u32, k: nat): (b: byte)
    requires k < 4
    ensures (k == 1 && w < 0x100) || (k == 2 && w < 0x1_0000) || (k == 3 && w < 0x100_0000) ==> b == 0
  {
    if k == 0 then w % 0x100 else ByteOf(w / 0x100, k - 1)
  }

  /** Words are stored from their low byte up. */
  lemma BytesAreTheWord(w: u32)
    ensures w == ByteOf(w, 0) + 0x100 * ByteOf(w, 1) + 0x1_0000 * ByteOf(w, 2) + 0x100_0000 * ByteOf(w, 3)
  {
    var a: u32 := w / 0x100;
    var b: u32 := a / 0x100;
    var c: u32 := b / 0x100;
    assert c < 0x100;
    assert ByteOf(w, 1) == a % 0x100;
    assert ByteOf(w, 2) == ByteOf(a, 1) == b % 0x100;
    assert ByteOf(w, 3) == ByteOf(a, 2) == ByteOf(b, 1) == c % 0x100;
  }

  /** A byte of an entry: the type follows the name, and the inode number the type. */
  function EntryByte(e: Dentry, i: nat): byte
    requires EntryOk(e) && i < MAX_NAME_LENGTH + 8
  {
    if i < MAX_NAME_LENGTH then e.fileName[i]
    else if i < MAX_NAME_LENGTH + 4 then ByteOf(e.fileType, i - MAX_NAME_LENGTH)
    else ByteOf(e.inode, i - MAX_NAME_LENGTH - 4)
  }

  /** The first NUL of an entry from i on. */
  function FirstNul(e: Dentry, i: nat): (n: nat)
    requires EntryOk(e) && i < MAX_NAME_LENGTH + 8
    ensures i <= n < MAX_NAME_LENGTH + 8
    decreases MAX_NAME_LENGTH + 8 - i
  {
    if EntryByte(e, i) == NUL then i else FirstNul(e, i + 1)
  }

  lemma {:induction false} FirstNulFrom(e: Dentry, i: nat)
    requires EntryOk(e) && i <= |Name(e)|
    ensures FirstNul(e, 0) == FirstNul(e, i)
  {
    if i > 0 {
      FirstNulFrom(e, i - 1);
    }
  }

  /** strlen() of an entry's name: it takes what follows for part of a name of 32 bytes. */
  method EntryStrlen(e: Dentry) returns (n: nat)
    requires EntryOk(e)
    ensures n == if |Name(e)| < MAX_NAME_LENGTH then |Name(e)| else FirstNul(e, MAX_NAME_LENGTH)
  {
    n := 0;
    while EntryByte(e, n) != NUL
      invariant n < MAX_NAME_LENGTH + 8 && FirstNul(e, n) == FirstNul(e, 0)
      decreases MAX_NAME_LENGTH + 8 - n
    {
      n := n + 1;
    }
    FirstNulFrom(e, |Name(e)|);
  }

  /** Whether strncmp() finds no difference between a name and an entry. */
  method SameBytes(fname: seq<byte>, e: Dentry) returns (same: bool)
    requires EntryOk(e) && NUL !in fname && |fname| <= MAX_NAME_LENGTH
    ensures same <==> fname <= e.fileName
  {
    var i := 0;
    while i < |fname|
      invariant 0 <= i <= |fname| && fname[..i] <= e.fileName
    {
      if fname[i] != e.fileName[i] || fname[i] == NUL {
        return false;
      }
      i := i + 1;
    }
    same := true;
  }

  /** Looking for a name finds an entry of that name; if the name has 32 bytes, exactly one byte of the type must run on. */
  predicate Finds(fname: seq<byte>, e: Dentry)
    requires EntryOk(e)
  {
    fname != [] && Name(e) == fname && (|fname| == MAX_NAME_LENGTH ==> RunsOnByOne(e))
  }

  predicate RunsOnByOne(e: Dentry) {
    ByteOf(e.fileType, 0) != NUL && ByteOf(e.fileType, 1) == NUL
  }

  lemma RunsOnByOneIff(e: Dentry)
    requires EntryOk(e)
    ensures RunsOnByOne(e) <==> FirstNul(e, MAX_NAME_LENGTH) == MAX_NAME_LENGTH + 1
  {
  }

  predicate DirectoryOk(entries: seq<Dentry>) {
    forall i | 0 <= i < |entries| :: EntryOk(entries[i])
  }

  /** The index of the first entry that a look-up finds, or -1. */
  predicate FirstFound(entries: seq<Dentry>, fname: seq<byte>, found: int)
    requires DirectoryOk(entries)
  {
    && -1 <= found < |entries|
    && (found >= 0 ==> Finds(fname, entries[found]))
    && forall i | 0 <= i < if found == -1 then |entries| else found :: !Finds(fname, entries[i])
  }

  lemma PrefixOfSameLength(a: seq<byte>, b: seq<byte>, whole: seq<byte>)
    requires a <= whole && b <= whole && |a| == |b|
    ensures a == b
  {
  }

  /** If no two entries share a name, an entry's name leads back to it, or nowhere if it is empty, or
      has 32 bytes and a type whose first two bytes are not one other than 0 and a 0. */
  lemma NameLeadsBackIff(entries: seq<Dentry>, i: nat, found: int)
    requires DirectoryOk(entries) && i < |entries|
    requires forall a, b | 0 <= a < b < |entries| :: Name(entries[a]) != Name(entries[b])
    requires FirstFound(entries, Name(entries[i]), found)
    ensures var name := Name(entries[i]);
      found == if name == [] || (|name| == MAX_NAME_LENGTH && !RunsOnByOne(entries[i])) then -1 else i
  {
  }

  /** What a look-up copies out: the name as a string, the type and the inode number. */
  datatype FileInfo = FileInfo(name: seq<byte>, fileType: u32, inode: u32)

  function InfoOf(e: Dentry): FileInfo
    requires EntryOk(e)
  {
    FileInfo(Name(e), e.fileType, e.inode)
  }

  const NO_FILE := FileInfo([], 0, 0)

  /** The driver's variables: the directory index, which all open directories share, and the last file found. */
  class Driver {
    const img: Image
    var dirNumber: nat
    var inodeNumber: u32
    var fSize: u32

    constructor (image: Image)
      ensures img == image && dirNumber == 0
    {
      img, dirNumber, inodeNumber, fSize := image, 0, 0, 0;
    }

    /** read_dentry_by_name(): the first entry that it finds, and its file's size. */
    method ReadDentryByName(fname: seq<byte>) returns (r: int, info: FileInfo, ghost found: int)
      requires DirectoryOk(img.dirEntries) && NUL !in fname
      requires forall i | 0 <= i < |img.dirEntries| && Finds(fname, img.dirEntries[i]) :: img.dirEntries[i].inode < |img.inodes|
      modifies this`inodeNumber, this`fSize
      ensures FirstFound(img.dirEntries, fname, found) && r == if found == -1 then -1 else 0
      ensures found == -1 ==> unchanged(this)
      ensures found >= 0 ==>
                && info == FileInfo(Name(img.dirEntries[found]), img.dirEntries[found].fileType, img.dirEntries[found].inode)
                && inodeNumber == info.inode && fSize == img.inodes[info.inode].length
    {
      info := NO_FILE;
      if |fname| > MAX_NAME_LENGTH || |fname| == 0 {
        return -1, info, -1;
      }
      var trueLength := if |fname| == MAX_NAME_LENGTH then |fname| + 1 else |fname|;
      var i := 0;
      while i < |img.dirEntries|
        invariant 0 <= i <= |img.dirEntries| && unchanged(this)
        invariant forall k | 0 <= k < i :: !Finds(fname, img.dirEntries[k])
      {
        var hit := Matches(img.dirEntries[i], fname, trueLength);
        if hit {
          info := InfoOf(img.dirEntries[i]);
          inodeNumber := img.dirEntries[i].inode;
          fSize := img.inodes[inodeNumber].length;
          return 0, info, i;
        }
        i := i + 1;
      }
      return -1, info, -1;
    }

    /** read_dentry_by_index() */
    method ReadDentryByIndex(index: u32) returns (r: int, info: FileInfo)
      requires DirectoryOk(img.dirEntries)
      ensures r == if index < |img.dirEntries| then 0 else -1
      ensures index < |img.dirEntries| ==>
                info == FileInfo(Name(img.dirEntries[index]), img.dirEntries[index].fileType, img.dirEntries[index].inode)
    {
      if index >= |img.dirEntries| {
        return -1, NO_FILE;
      }
      return 0, InfoOf(img.dirEntries[index]);
    }

    /** dir_read(): the next name, or nothing and back to the start; it pays no attention to the size
        that the caller asks for. */
    method DirRead(buf: array<byte>) returns (r: nat)
      requires DirectoryOk(img.dirEntries) && dirNumber <= |img.dirEntries| < 0x1_0000 && buf.Length >= MAX_NAME_LENGTH
      modifies this`dirNumber, buf
      ensures dirNumber == NextEntry(|img.dirEntries|, old(dirNumber))
      ensures var name := Delivered(img.dirEntries, old(dirNumber)); r == |name| && buf[..] == name + old(buf[..])[r..]
    {
      var found, info := ReadDentryByIndex(dirNumber);
      if found == 0 {
        r := CopyName(img.dirEntries[dirNumber], info.name, buf);
        dirNumber := dirNumber + 1;
      } else {
        dirNumber := 0;
        r := 0;
      }
    }
  }

  /** The two tests of an entry: the lengths, and then the bytes. */
  method Matches(e: Dentry, fname: seq<byte>, trueLength: nat) returns (hit: bool)
    requires EntryOk(e) && NUL !in fname && 0 < |fname| <= MAX_NAME_LENGTH
    requires trueLength == if |fname| == MAX_NAME_LENGTH then |fname| + 1 else |fname|
    ensures hit <==> Finds(fname, e)
  {
    hit := false;
    var n := EntryStrlen(e);
    RunsOnByOneIff(e);
    if trueLength == n {
      hit := SameBytes(fname, e);
      if hit {
        PrefixOfSameLength(fname, Name(e), e.fileName);
      }
    }
  }

  /** The copy of a name, cut at 32 bytes, since its length is measured on an entry again. */
  method CopyName(e: Dentry, name: seq<byte>, buf: array<byte>) returns (length: nat)
    requires EntryOk(e) && name == Name(e) && buf.Length >= MAX_NAME_LENGTH
    modifies buf
    ensures length == |name| && buf[..] == name + old(buf[..])[length..]
  {
    length := EntryStrlen(e);
    if length >= MAX_NAME_LENGTH {
      length := MAX_NAME_LENGTH;
    }
    var i := 0;
    while i < length
      invariant 0 <= i <= length
      invariant forall k | 0 <= k < i :: buf[k] == name[k]
      invariant forall k | i <= k < buf.Length :: buf[k] == old(buf[k])
    {
      buf[i] := name[i];
      i := i + 1;
    }
  }

  function NextEntry(n: nat, index: nat): nat {
    if index < n then index + 1 else 0
  }

  /** What a call delivers at an index. */
  function Delivered(entries: seq<Dentry>, index: nat): seq<byte>
    requires DirectoryOk(entries)
  {
    if index < |entries| then Name(entries[index]) else []
  }

  /** The index after k calls. */
  function IndexAfter(n: nat, k: nat): nat {
    if k == 0 then 0 else NextEntry(n, IndexAfter(n, k - 1))
  }

  /** The calls go through all the entries in order, deliver nothing once, and start over, for ever. */
  lemma {:induction false} ListingRepeats(n: nat, k: nat)
    ensures IndexAfter(n, k) == k % (n + 1)
  {
    if k > 0 {
      ListingRepeats(n, k - 1);
      ModSuccessor(k - 1, n + 1);
    }
  }

  /** Call k, counting from 0, delivers the name at the same place in every round of the listing. */
  lemma ListingInOrder(entries: seq<Dentry>, k: nat)
    requires DirectoryOk(entries)
    ensures var i := k % (|entries| + 1);
      Delivered(entries, IndexAfter(|entries|, k)) == if i < |entries| then Name(entries[i]) else []
  {
    ListingRepeats(|entries|, k);
  }
}
