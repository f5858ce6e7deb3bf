/** The block operations of the kernel's library on flat memory; addresses are positions in it. */
module Memory {
  import opened Types

  /** Memory after n bytes from s have been moved to d, all at once. */
  function Moved(mem: seq<byte>, d: nat, s: nat, n: nat): (r: seq<byte>)
    requires d + n <= |mem| && s + n <= |mem|
    ensures |r| == |mem|
  {
    seq(|mem|, a requires 0 <= a < |mem| => if d <= a < d + n then mem[s + (a - d)] else mem[a])
  }

  function Filled(mem: seq<byte>, s: nat, c: byte, n: nat): (r: seq<byte>)
    requires s + n <= |mem|
    ensures |r| == |mem|
  {
    seq(|mem|, a requires 0 <= a < |mem| => if s <= a < s + n then c else mem[a])
  }

  /** Moving in two pieces is moving at once, as long as the first piece does not overwrite the second's source. */
  lemma MoveInPieces(was: seq<byte>, mid: seq<byte>, now: seq<byte>, d: nat, s: nat, m: nat, n: nat)
    requires d + m + n <= |was| && s + m + n <= |was|
    requires d <= s || s + m + n <= d
    requires mid == Moved(was, d, s, m) && now == Moved(mid, d + m, s + m, n)
    ensures now == Moved(was, d, s, m + n)
  {
  }

  lemma MoveNothing(mem: seq<byte>, d: nat, s: nat)
    requires d <= |mem| && s <= |mem|
    ensures Moved(mem, d, s, 0) == mem
  {
  }

  lemma MoveDownInPieces(was: seq<byte>, mid: seq<byte>, now: seq<byte>, d: nat, s: nat, n: nat)
    requires d + n < |was| && s < d
    requires mid == Moved(was, d + 1, s + 1, n) && now == Moved(mid, d, s, 1)
    ensures now == Moved(was, d, s, n + 1)
  {
  }

  /** One byte read and written. */
  method Movsb(mem: array<byte>, edi: nat, esi: nat)
    requires edi < mem.Length && esi < mem.Length
    modifies mem
    ensures mem[..] == Moved(old(mem[..]), edi, esi, 1)
  {
    mem[edi] := mem[esi];
  }

  /** One more byte of a move whose first bytes have been moved. */
  method MoveNext(mem: array<byte>, edi: nat, esi: nat, done: nat, ghost was: seq<byte>)
    requires edi + done < mem.Length && esi + done < mem.Length && |was| == mem.Length
    requires edi <= esi || esi + done + 1 <= edi
    requires mem[..] == Moved(was, edi, esi, done)
    modifies mem
    ensures mem[..] == Moved(was, edi, esi, done + 1)
  {
    ghost var mid := mem[..];
    Movsb(mem, edi + done, esi + done);
    MoveInPieces(was, mid, mem[..], edi, esi, done, 1);
  }

  /** The string instruction movsb, repeated ecx times with addresses going up. */
  method RepMovsb(mem: array<byte>, edi: nat, esi: nat, ecx: nat)
    requires edi + ecx <= mem.Length && esi + ecx <= mem.Length
    requires edi <= esi || esi + ecx <= edi
    modifies mem
    ensures mem[..] == Moved(old(mem[..]), edi, esi, ecx)
  {
    ghost var was := mem[..];
    for i := 0 to ecx
      invariant mem[..] == Moved(was, edi, esi, i)
    {
      MoveNext(mem, edi, esi, i, was);
    }
  }

  /** The same with the direction flag set: the addresses name the last bytes and go down. */
  method RepMovsbDown(mem: array<byte>, edi: int, esi: int, ecx: nat)
    requires ecx <= edi + 1 <= mem.Length && ecx <= esi + 1
    requires esi < edi
    modifies mem
    ensures mem[..] == Moved(old(mem[..]), edi + 1 - ecx, esi + 1 - ecx, ecx)
  {
    ghost var was := mem[..];
    for i := 0 to ecx
      invariant mem[..] == Moved(was, edi + 1 - i, esi + 1 - i, i)
    {
      ghost var mid := mem[..];
      Movsb(mem, edi - i, esi - i);
      MoveDownInPieces(was, mid, mem[..], edi - i, esi - i, i);
    }
  }

  /** memmove() leaves the old source bytes at the destination, however the two overlap. */
  method Memmove(mem: array<byte>, dest: nat, src: nat, n: nat)
    requires dest + n <= mem.Length && src + n <= mem.Length
    modifies mem
    ensures mem[..] == Moved(old(mem[..]), dest, src, n)
  {
    if src >= dest {
      RepMovsb(mem, dest, src, n);
    } else {
      RepMovsbDown(mem, dest + n - 1, src + n - 1, n);
    }
  }

  /** One movsl: a word is read and then written. */
  method Movsl(mem: array<byte>, edi: nat, esi: nat)
    requires edi + 4 <= mem.Length && esi + 4 <= mem.Length
    modifies mem
    ensures mem[..] == Moved(old(mem[..]), edi, esi, 4)
  {
    var b0, b1, b2, b3 := mem[esi], mem[esi + 1], mem[esi + 2], mem[esi + 3];
    mem[edi] := b0;
    mem[edi + 1] := b1;
    mem[edi + 2] := b2;
    mem[edi + 3] := b3;
  }

  /** One more word of a move. */
  method MoveNextWord(mem: array<byte>, edi: nat, esi: nat, done: nat, ghost was: seq<byte>)
    requires edi + done + 4 <= mem.Length && esi + done + 4 <= mem.Length && |was| == mem.Length
    requires edi <= esi || esi + done + 4 <= edi
    requires mem[..] == Moved(was, edi, esi, done)
    modifies mem
    ensures mem[..] == Moved(was, edi, esi, done + 4)
  {
    ghost var mid := mem[..];
    Movsl(mem, edi + done, esi + done);
    MoveInPieces(was, mid, mem[..], edi, esi, done, 4);
  }

  /** movsl repeated ecx times. */
  method RepMovsl(mem: array<byte>, edi: nat, esi: nat, ecx: nat)
    requires edi + 4 * ecx <= mem.Length && esi + 4 * ecx <= mem.Length
    requires edi <= esi || esi + 4 * ecx <= edi
    modifies mem
    ensures mem[..] == Moved(old(mem[..]), edi, esi, 4 * ecx)
  {
    ghost var was := mem[..];
    var done, left := 0, ecx;
    MoveNothing(was, edi, esi);
    while left != 0
      invariant 0 <= left && done + 4 * left == 4 * ecx && done >= 0
      invariant mem[..] == Moved(was, edi, esi, done)
      decreases left
    {
      MoveNextWord(mem, edi, esi, done, was);
      done, left := done + 4, left - 1;
    }
  }

  /** The byte loop at the end of memcpy(). */
  method MoveTail(mem: array<byte>, edi: nat, esi: nat, edx: nat)
    requires edi + edx <= mem.Length && esi + edx <= mem.Length
    requires edi <= esi || esi + edx <= edi
    modifies mem
    ensures mem[..] == Moved(old(mem[..]), edi, esi, edx)
  {
    ghost var was := mem[..];
    var done, left := 0, edx;
    while left != 0
      invariant 0 <= left && done + left == edx
      invariant mem[..] == Moved(was, edi, esi, done)
      decreases left
    {
      MoveNext(mem, edi, esi, done, was);
      done, left := done + 1, left - 1;
    }
  }

  predicate Aligned(address: nat) {
    address % 4 == 0
  }

  /** The byte loop of memcpy() up to a word boundary. */
  method MoveHead(mem: array<byte>, edi: nat, esi: nat, ecx: nat) returns (done: nat)
    requires edi + ecx <= mem.Length && esi + ecx <= mem.Length
    requires edi <= esi || esi + ecx <= edi
    modifies mem
    ensures done <= ecx && (done == ecx || Aligned(edi + done))
    ensures mem[..] == Moved(old(mem[..]), edi, esi, done)
  {
    ghost var was := mem[..];
    done := 0;
    MoveNothing(was, edi, esi);
    while done < ecx && !Aligned(edi + done)
      invariant 0 <= done <= ecx
      invariant mem[..] == Moved(was, edi, esi, done)
    {
      MoveNext(mem, edi, esi, done, was);
      done := done + 1;
    }
  }

  /** memcpy() from a word boundary on. */
  method MoveWords(mem: array<byte>, edi: nat, esi: nat, ecx: nat, ghost was: seq<byte>)
    requires edi + ecx <= mem.Length && esi + ecx <= mem.Length
    requires (edi <= esi || esi + ecx <= edi) && was == mem[..]
    modifies mem
    ensures mem[..] == Moved(was, edi, esi, ecx)
  {
    var words, edx := ecx / 4, ecx % 4;
    MoveWordsAndTail(mem, edi, esi, words, edx);
  }

  method MoveWordsAndTail(mem: array<byte>, edi: nat, esi: nat, words: nat, edx: nat)
    requires edi + 4 * words + edx <= mem.Length && esi + 4 * words + edx <= mem.Length
    requires edi <= esi || esi + 4 * words + edx <= edi
    modifies mem
    ensures mem[..] == Moved(old(mem[..]), edi, esi, 4 * words + edx)
  {
    ghost var was := mem[..];
    RepMovsl(mem, edi, esi, words);
    ghost var mid := mem[..];
    MoveTail(mem, edi + 4 * words, esi + 4 * words, edx);
    MoveInPieces(was, mid, mem[..], edi, esi, 4 * words, edx);
  }

  /**
   memcpy(): bytes up to a word boundary, then words, then the remaining bytes.  It moves like
   memmove() unless the destination starts inside the source.
   */
  method Memcpy(mem: array<byte>, dest: nat, src: nat, n: nat)
    requires dest + n <= mem.Length && src + n <= mem.Length
    requires dest <= src || src + n <= dest
    modifies mem
    ensures mem[..] == Moved(old(mem[..]), dest, src, n)
  {
    ghost var was := mem[..];
    var done := MoveHead(mem, dest, src, n);
    if done < n {
      MoveRest(mem, dest, src, done, n, was);
    }
  }

  /** What is left of a move once its first bytes have been moved. */
  method MoveRest(mem: array<byte>, edi: nat, esi: nat, done: nat, n: nat, ghost was: seq<byte>)
    requires done <= n && edi + n <= mem.Length && esi + n <= mem.Length && |was| == mem.Length
    requires edi <= esi || esi + n <= edi
    requires mem[..] == Moved(was, edi, esi, done)
    modifies mem
    ensures mem[..] == Moved(was, edi, esi, n)
  {
    ghost var mid := mem[..];
    MoveWords(mem, edi + done, esi + done, n - done, mid);
    MoveInPieces(was, mid, mem[..], edi, esi, done, n - done);
  }

  lemma FillInPieces(was: seq<byte>, mid: seq<byte>, now: seq<byte>, s: nat, c: byte, m: nat, n: nat)
    requires s + m + n <= |was|
    requires mid == Filled(was, s, c, m) && now == Filled(mid, s + m, c, n)
    ensures now == Filled(was, s, c, m + n)
  {
  }

  method Stosb(mem: array<byte>, edi: nat, c: byte)
    requires edi < mem.Length
    modifies mem
    ensures mem[..] == Filled(old(mem[..]), edi, c, 1)
  {
    mem[edi] := c;
  }

  method Stosl(mem: array<byte>, edi: nat, c: byte)
    requires edi + 4 <= mem.Length
    modifies mem
    ensures mem[..] == Filled(old(mem[..]), edi, c, 4)
  {
    mem[edi] := c;
    mem[edi + 1] := c;
    mem[edi + 2] := c;
    mem[edi + 3] := c;
  }

  /** The instruction stosl, repeated, storing one byte four times over. */
  method RepStosl(mem: array<byte>, edi: nat, c: byte, bytes: nat)
    requires bytes % 4 == 0 && edi + bytes <= mem.Length
    modifies mem
    ensures mem[..] == Filled(old(mem[..]), edi, c, bytes)
  {
    ghost var was := mem[..];
    var done := 0;
    while done < bytes
      invariant 0 <= done <= bytes && done % 4 == 0
      invariant mem[..] == Filled(was, edi, c, done)
    {
      ghost var mid := mem[..];
      Stosl(mem, edi + done, c);
      FillInPieces(was, mid, mem[..], edi, c, done, 4);
      done := done + 4;
    }
  }

  /** memset() by bytes, words and bytes stores the low byte of c everywhere in its range and nowhere else. */
  method Memset(mem: array<byte>, s: nat, c: int, n: nat)
    requires s + n <= mem.Length
    modifies mem
    ensures mem[..] == Filled(old(mem[..]), s, c % 256, n)
  {
    ghost var was := mem[..];
    var al: byte := c % 256;
    var done := 0;
    while done < n && (s + done) % 4 != 0
      invariant 0 <= done <= n
      invariant mem[..] == Filled(was, s, al, done)
    {
      ghost var mid := mem[..];
      Stosb(mem, s + done, al);
      FillInPieces(was, mid, mem[..], s, al, done, 1);
      done := done + 1;
    }
    if done == n {
      return;
    }
    var ecx, edx := (n - done) / 4, (n - done) % 4;
    var bytes := 4 * ecx;
    ghost var mid := mem[..];
    RepStosl(mem, s + done, al, bytes);
    FillInPieces(was, mid, mem[..], s, al, done, bytes);
    done := done + bytes;
    while edx != 0
      invariant 0 <= edx && done + edx == n
      invariant mem[..] == Filled(was, s, al, done)
      decreases edx
    {
      ghost var mid := mem[..];
      Stosb(mem, s + done, al);
      FillInPieces(was, mid, mem[..], s, al, done, 1);
      done, edx := done + 1, edx - 1;
    }
  }
}
